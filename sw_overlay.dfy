/**
 * The software-development overlay on top of a `ModelDB`. A Vision,
 * Subsystem, Deliverable or Epic is an ordinary project plus one row in the
 * overlay table of that kind; a Story is a phase plus a row; an overlay task
 * is a task plus a row. Epics, stories and overlay tasks also carry a
 * guardrail. Every overlay table references its project, phase or task by a
 * unique column.
 */
module SwOverlay {
  import opened Common
  import opened Schema
  import opened ModelStore

  datatype Guardrail = Production | Mvp | Prototype | Poc | Study | Research

  /** The four overlay kinds a project can have. */
  datatype ProjectKind = Vision | Subsystem | Deliverable | Epic

  /** The order in which `get_sw_type`, `wrap_project` and the project delete look at the tables. */
  const DetectionOrder: seq<ProjectKind> := [Vision, Subsystem, Deliverable, Epic]

  /** A kind's place in `DetectionOrder`. */
  function Rank(k: ProjectKind): (r: nat)
    ensures r < |DetectionOrder| && DetectionOrder[r] == k
  {
    match k
    case Vision => 0
    case Subsystem => 1
    case Deliverable => 2
    case Epic => 3
  }

  lemma RankOfListed(i: int)
    requires 0 <= i < |DetectionOrder|
    ensures Rank(DetectionOrder[i]) == i
  {
    if i == 0 {
    } else if i == 1 {
    } else if i == 2 {
    } else {
    }
  }

  /**
   * One overlay row: the project, phase or task it extends, and the
   * guardrail column for the tables that have one.
   */
  datatype Row = Row(target: Id, guardrail: Option<Guardrail>)

  /** A Vision, Subsystem or Deliverable record: the overlay row id and the project. */
  datatype SwProjectRecord = SwProjectRecord(overlayId: Id, project: ProjectRecord)

  datatype EpicRecord = EpicRecord(epicId: Id, project: ProjectRecord, guardrail: Guardrail)

  /** A story record reads its project and phase ids from the phase it extends. */
  datatype StoryRecord = StoryRecord(storyId: Id, phaseId: Option<Id>, projectId: Option<Id>, guardrail: Guardrail)

  datatype SwTaskRecord = SwTaskRecord(swTaskId: Id, task: TaskRecord, guardrail: Guardrail)

  /** What `wrap_project` hands back: the overlay it found, or the record unchanged. */
  datatype Wrapped = Plain(record: ProjectRecord) | Overlaid(kind: ProjectKind, overlayId: Id, row: Row)

  // ---------------------------------------------------------------------------
  // Choosing among optional arguments: each `if a: ... elif b: ...` chain of
  // the factories picks the first argument that was given.

  /** The first entry that is present, scanning from the left. */
  function FirstGiven<T>(xs: seq<Option<T>>): (r: Option<T>)
    ensures r.None? <==> forall i :: 0 <= i < |xs| ==> xs[i].None?
    ensures forall i :: 0 <= i < |xs| && xs[i].Some? && (forall j :: 0 <= j < i ==> xs[j].None?) ==> r == xs[i]
  {
    if |xs| == 0 then None
    else if xs[0].Some? then xs[0]
    else
      var rest := FirstGiven(xs[1..]);
      assert forall i :: 1 <= i < |xs| ==> xs[i] == xs[1..][i - 1];
      rest
  }

  /** One step of the scan, for unfolding it over a display. */
  lemma FirstGivenStep<T>(xs: seq<Option<T>>)
    requires |xs| > 0
    ensures FirstGiven(xs) == if xs[0].Some? then xs[0] else FirstGiven(xs[1..])
  {
  }

  /** The project id of the first anchor given, or None when none is. */
  function NearestProject(anchors: seq<Option<ProjectRecord>>): Option<Id>
  {
    match FirstGiven(anchors)
    case None => None
    case Some(p) => p.projectId
  }

  /** The guardrail of the first choice given, PRODUCTION when none is. */
  function FirstGuardrail(choices: seq<Option<Guardrail>>): Guardrail
  {
    match FirstGiven(choices)
    case None => Production
    case Some(g) => g
  }

  function ProjectOf(r: Option<SwProjectRecord>): Option<ProjectRecord>
  {
    if r.Some? then Some(r.value.project) else None
  }

  function EpicProjectOf(e: Option<EpicRecord>): Option<ProjectRecord>
  {
    if e.Some? then Some(e.value.project) else None
  }

  function EpicGuardrailOf(e: Option<EpicRecord>): Option<Guardrail>
  {
    if e.Some? then Some(e.value.guardrail) else None
  }

  function StoryGuardrailOf(s: Option<StoryRecord>): Option<Guardrail>
  {
    if s.Some? then Some(s.value.guardrail) else None
  }

  /** `add_subsystem`'s parent: the vision's project, or none. */
  function SubsystemParent(vision: Option<SwProjectRecord>): (r: Option<Id>)
    ensures r == NearestProject([ProjectOf(vision)])
    ensures vision.None? ==> r.None?
  {
    FirstGivenStep([ProjectOf(vision)]);
    assert [ProjectOf(vision)][1..] == [];
    if vision.Some? then vision.value.project.projectId else None
  }

  /** `add_deliverable`'s parent: the subsystem's project, else the vision's. */
  function DeliverableParent(vision: Option<SwProjectRecord>, subsystem: Option<SwProjectRecord>): (r: Option<Id>)
    ensures r == NearestProject([ProjectOf(subsystem), ProjectOf(vision)])
  {
    var anchors := [ProjectOf(subsystem), ProjectOf(vision)];
    assert anchors[1..] == [ProjectOf(vision)] && anchors[1..][1..] == [];
    FirstGivenStep(anchors);
    FirstGivenStep(anchors[1..]);
    if subsystem.Some? then subsystem.value.project.projectId
    else if vision.Some? then vision.value.project.projectId
    else None
  }

  /** `add_epic`'s parent: deliverable, else subsystem, else vision. */
  function EpicParent(vision: Option<SwProjectRecord>, subsystem: Option<SwProjectRecord>,
                      deliverable: Option<SwProjectRecord>): (r: Option<Id>)
    ensures r == NearestProject([ProjectOf(deliverable), ProjectOf(subsystem), ProjectOf(vision)])
  {
    var anchors := [ProjectOf(deliverable), ProjectOf(subsystem), ProjectOf(vision)];
    assert anchors[1..] == [ProjectOf(subsystem), ProjectOf(vision)];
    assert anchors[1..][1..] == [ProjectOf(vision)] && anchors[1..][1..][1..] == [];
    FirstGivenStep(anchors);
    FirstGivenStep(anchors[1..]);
    FirstGivenStep(anchors[1..][1..]);
    if deliverable.Some? then deliverable.value.project.projectId
    else if subsystem.Some? then subsystem.value.project.projectId
    else if vision.Some? then vision.value.project.projectId
    else None
  }

  /** `add_story`'s project: epic, else deliverable, else subsystem, else vision. */
  function StoryProject(vision: Option<SwProjectRecord>, subsystem: Option<SwProjectRecord>,
                        deliverable: Option<SwProjectRecord>, epic: Option<EpicRecord>): (r: Option<Id>)
    ensures r == NearestProject([EpicProjectOf(epic), ProjectOf(deliverable), ProjectOf(subsystem), ProjectOf(vision)])
  {
    var anchors := [EpicProjectOf(epic), ProjectOf(deliverable), ProjectOf(subsystem), ProjectOf(vision)];
    assert anchors[1..] == [ProjectOf(deliverable), ProjectOf(subsystem), ProjectOf(vision)];
    assert anchors[1..][1..] == [ProjectOf(subsystem), ProjectOf(vision)];
    assert anchors[1..][1..][1..] == [ProjectOf(vision)] && anchors[1..][1..][1..][1..] == [];
    FirstGivenStep(anchors);
    FirstGivenStep(anchors[1..]);
    FirstGivenStep(anchors[1..][1..]);
    FirstGivenStep(anchors[1..][1..][1..]);
    if epic.Some? then epic.value.project.projectId
    else if deliverable.Some? then deliverable.value.project.projectId
    else if subsystem.Some? then subsystem.value.project.projectId
    else if vision.Some? then vision.value.project.projectId
    else None
  }

  /**
   * `add_task`'s project and phase: a story gives both; otherwise the
   * project comes from epic, deliverable, subsystem or vision and there is
   * no phase.
   */
  function TaskAnchor(vision: Option<SwProjectRecord>, subsystem: Option<SwProjectRecord>,
                      deliverable: Option<SwProjectRecord>, epic: Option<EpicRecord>,
                      story: Option<StoryRecord>): (r: (Option<Id>, Option<Id>))
    ensures story.Some? ==> r == (story.value.projectId, story.value.phaseId)
    ensures story.None? ==> r == (StoryProject(vision, subsystem, deliverable, epic), None)
  {
    if story.Some? then (story.value.projectId, story.value.phaseId)
    else if epic.Some? then (epic.value.project.projectId, None)
    else if deliverable.Some? then (deliverable.value.project.projectId, None)
    else if subsystem.Some? then (subsystem.value.project.projectId, None)
    else if vision.Some? then (vision.value.project.projectId, None)
    else (None, None)
  }

  /** `add_epic`'s guardrail: the one given, else PRODUCTION. */
  function EpicGuardrail(explicit: Option<Guardrail>): (r: Guardrail)
    ensures r == FirstGuardrail([explicit])
  {
    assert [explicit][1..] == [];
    FirstGivenStep([explicit]);
    if explicit.Some? then explicit.value else Production
  }

  /**
   * `add_story`'s guardrail. The source tests "none given and an epic"
   * first; the result is still explicit, else the epic's, else PRODUCTION.
   */
  function StoryGuardrail(explicit: Option<Guardrail>, epic: Option<EpicRecord>): (r: Guardrail)
    ensures r == FirstGuardrail([explicit, EpicGuardrailOf(epic)])
  {
    var choices := [explicit, EpicGuardrailOf(epic)];
    assert choices[1..] == [EpicGuardrailOf(epic)] && choices[1..][1..] == [];
    FirstGivenStep(choices);
    FirstGivenStep(choices[1..]);
    if explicit.None? && epic.Some? then epic.value.guardrail
    else if explicit.Some? then explicit.value
    else Production
  }

  /** `add_task`'s guardrail: explicit, else the story's, else the epic's, else PRODUCTION. */
  function TaskGuardrail(explicit: Option<Guardrail>, story: Option<StoryRecord>, epic: Option<EpicRecord>): (r: Guardrail)
    ensures r == FirstGuardrail([explicit, StoryGuardrailOf(story), EpicGuardrailOf(epic)])
  {
    var choices := [explicit, StoryGuardrailOf(story), EpicGuardrailOf(epic)];
    assert choices[1..] == [StoryGuardrailOf(story), EpicGuardrailOf(epic)];
    assert choices[1..][1..] == [EpicGuardrailOf(epic)] && choices[1..][1..][1..] == [];
    FirstGivenStep(choices);
    FirstGivenStep(choices[1..]);
    FirstGivenStep(choices[1..][1..]);
    if explicit.Some? then explicit.value
    else if story.Some? then story.value.guardrail
    else if epic.Some? then epic.value.guardrail
    else Production
  }

  /**
   * Guardrails flow down: a story made under an epic without its own
   * guardrail takes the epic's, and a task made under that story without its
   * own guardrail takes it in turn, whatever epic is also passed.
   */
  lemma {:induction false} GuardrailFlowsDown(e: EpicRecord, st: StoryRecord, other: Option<EpicRecord>)
    requires st.guardrail == StoryGuardrail(None, Some(e))
    ensures TaskGuardrail(None, Some(st), other) == e.guardrail
  {
  }

  // ---------------------------------------------------------------------------
  // Overlay tables.

  /** The unique constraint on the referencing column. */
  ghost predicate TargetsUnique(m: map<Id, Row>)
  {
    forall a, b :: a in m && b in m && m[a].target == m[b].target ==> a == b
  }

  /** Every referenced row was created before the next id of its table. */
  ghost predicate TargetsBelow(m: map<Id, Row>, next: Id)
  {
    forall k :: k in m ==> m[k].target < next
  }

  /** The guardrail column is filled exactly in the tables that have it. */
  ghost predicate Guarded(m: map<Id, Row>, hasColumn: bool)
  {
    forall k :: k in m ==> m[k].guardrail.Some? == hasColumn
  }

  /** A well-formed overlay table whose next row id is `next`. */
  ghost predicate Table(m: map<Id, Row>, next: Id, hasColumn: bool)
  {
    KeysBelow(m, next) && TargetsUnique(m) && Guarded(m, hasColumn)
  }

  ghost predicate Refers(m: map<Id, Row>, target: int)
  {
    exists k :: k in m && m[k].target == target
  }

  /** The table without its rows that reference `target`. */
  function Without(m: map<Id, Row>, target: int): map<Id, Row>
  {
    map k | k in m && m[k].target != target :: m[k]
  }

  ghost predicate Complete<V>(m: map<ProjectKind, V>)
  {
    forall k: ProjectKind :: k in m
  }

  /**
   * The overlay kind of a project: the first kind in `DetectionOrder` whose
   * table references it.
   */
  ghost function SwTypeOf(overlays: map<ProjectKind, map<Id, Row>>, pid: int): (r: Option<ProjectKind>)
    requires Complete(overlays)
    ensures r.Some? ==> Refers(overlays[r.value], pid)
    ensures r.Some? ==> forall k :: Rank(k) < Rank(r.value) ==> !Refers(overlays[k], pid)
    ensures r.None? <==> forall k :: !Refers(overlays[k], pid)
  {
    if Refers(overlays[Vision], pid) then Some(Vision)
    else if Refers(overlays[Subsystem], pid) then Some(Subsystem)
    else if Refers(overlays[Deliverable], pid) then Some(Deliverable)
    else if Refers(overlays[Epic], pid) then Some(Epic)
    else
      NoKindRefers(overlays, pid);
      None
  }

  /** The four tables are all the tables there are. */
  lemma NoKindRefers(overlays: map<ProjectKind, map<Id, Row>>, pid: int)
    requires Complete(overlays)
    requires !Refers(overlays[Vision], pid) && !Refers(overlays[Subsystem], pid)
    requires !Refers(overlays[Deliverable], pid) && !Refers(overlays[Epic], pid)
    ensures forall k :: !Refers(overlays[k], pid)
  {
    forall k: ProjectKind
      ensures !Refers(overlays[k], pid)
    {
      match k
      case Vision =>
      case Subsystem =>
      case Deliverable =>
      case Epic =>
    }
  }

  /** The project delete's loop, one table further along `DetectionOrder`. */
  lemma DeletedUpTo(start: map<ProjectKind, map<Id, Row>>, before: map<ProjectKind, map<Id, Row>>,
                    after: map<ProjectKind, map<Id, Row>>, kind: ProjectKind, pid: int, i: int)
    requires Complete(start) && Complete(before) && Rank(kind) == i
    requires forall k :: before[k] == if Rank(k) < i then Without(start[k], pid) else start[k]
    requires after == before[kind := Without(before[kind], pid)]
    ensures forall k :: after[k] == if Rank(k) < i + 1 then Without(start[k], pid) else start[k]
  {
  }

  /**
   * After every table has lost its rows for `pid`, none refers to it, and
   * when none did before, nothing changed.
   */
  lemma AllWithout(before: map<ProjectKind, map<Id, Row>>, after: map<ProjectKind, map<Id, Row>>, pid: int)
    requires Complete(before) && Complete(after)
    requires forall k :: after[k] == Without(before[k], pid)
    ensures forall k :: !Refers(after[k], pid)
    ensures (forall k :: !Refers(before[k], pid)) ==> after == before
  {
    forall k: ProjectKind
      ensures !Refers(after[k], pid)
      ensures !Refers(before[k], pid) ==> after[k] == before[k]
    {
      WithoutRemoves(before[k], pid);
      if !Refers(before[k], pid) {
        WithoutNoop(before[k], pid);
      }
    }
    if forall k :: !Refers(before[k], pid) {
      assert after.Keys == before.Keys;
    }
  }

  /** Whether some row references `target`, by one `select(...).first()`. */
  method HasRowFor(m: map<Id, Row>, target: int) returns (b: bool)
    ensures b <==> Refers(m, target)
  {
    var found := FirstWhere(m, (row: Row) => row.target == target);
    b := found.Some?;
  }

  /**
   * Deletes the first row referencing `target`, if any. Under the unique
   * constraint that is every such row, so a second call changes nothing.
   */
  method DeleteFirstFor(m: map<Id, Row>, target: int) returns (r: map<Id, Row>)
    requires TargetsUnique(m)
    ensures r == Without(m, target)
    ensures !Refers(r, target)
    ensures !Refers(m, target) ==> r == m
  {
    var found := FirstWhere(m, (row: Row) => row.target == target);
    if found.Some? {
      var k := found.value;
      r := m - {k};
      assert r.Keys == Without(m, target).Keys;
    } else {
      r := m;
      assert r.Keys == Without(m, target).Keys;
    }
  }

  lemma WithoutRemoves(m: map<Id, Row>, target: int)
    ensures !Refers(Without(m, target), target)
  {
  }

  lemma WithoutNoop(m: map<Id, Row>, target: int)
    requires !Refers(m, target)
    ensures Without(m, target) == m
  {
  }

  /** Removing rows keeps a table well formed. */
  lemma WithoutKeepsTable(m: map<Id, Row>, target: int, next: Id, bound: Id, hasColumn: bool)
    requires Table(m, next, hasColumn) && TargetsBelow(m, bound)
    ensures Table(Without(m, target), next, hasColumn) && TargetsBelow(Without(m, target), bound)
  {
  }

  /**
   * Adding a row at the next id that references a row newer than every
   * referenced one keeps the table well formed.
   */
  lemma AppendKeepsTable(m: map<Id, Row>, next: Id, bound: Id, row: Row, hasColumn: bool)
    requires Table(m, next, hasColumn) && TargetsBelow(m, bound)
    requires row.target == bound && row.guardrail.Some? == hasColumn
    ensures Table(m[next := row], next + 1, hasColumn) && TargetsBelow(m[next := row], bound + 1)
  {
  }

  lemma TargetsBelowGrows(m: map<Id, Row>, bound: Id, bound': Id)
    requires TargetsBelow(m, bound) && bound <= bound'
    ensures TargetsBelow(m, bound')
  {
  }

  /** A row inserted with a project, phase or task name: the row and the record that go with it. */
  ghost predicate ProjectInserted(before: map<Id, Project>, after: map<Id, Project>, id: Id,
                                  name: string, description: Option<string>, parentId: Option<Id>)
  {
    id !in before &&
    after == before[id := Project(name, Lower(name), Some(OrEmpty(description)), parentId)]
  }

  /** `after` is `before` with one row added to the table of `kind`. */
  ghost predicate OverlayAdded(before: map<ProjectKind, map<Id, Row>>, after: map<ProjectKind, map<Id, Row>>,
                               kind: ProjectKind, oid: Id, row: Row)
  {
    kind in before && var table: map<Id, Row> := before[kind][oid := row]; after == before[kind := table]
  }

  /** `add_proj_base`'s checks in order: a taken name, then a missing parent. */
  ghost function BaseFailure(projects: map<Id, Project>, name: string, parentId: Option<Id>): Option<StoreError>
  {
    if ProjectNameTaken(projects, Lower(name), None) then Some(DuplicateName)
    else if parentId.Some? && parentId.value !in projects then Some(InvalidParent)
    else None
  }

  /** `add_story`'s checks in order: no anchor, a taken phase name, a missing project. */
  ghost function StoryFailure(projects: map<Id, Project>, phases: map<Id, Phase>, name: string,
                              projectId: Option<Id>): Option<StoreError>
  {
    if projectId.None? then Some(NoAnchor)
    else if PhaseNameTaken(phases, Lower(name), None) then Some(DuplicateName)
    else if projectId.value !in projects then Some(InvalidProjectId)
    else None
  }

  /** `add_task`'s checks in order: no anchor, a taken task name, a missing project, a missing phase. */
  ghost function TaskFailure(projects: map<Id, Project>, phases: map<Id, Phase>, tasks: map<Id, Task>,
                             name: string, projectId: Option<Id>, phaseId: Option<Id>): Option<StoreError>
  {
    if projectId.None? then Some(NoAnchor)
    else if TaskNameTaken(tasks, Lower(name), None) then Some(DuplicateName)
    else if projectId.value !in projects then Some(InvalidProjectId)
    else if phaseId.Some? && phaseId.value !in phases then Some(InvalidPhaseId)
    else None
  }

  /** The status `SWModelDB.add_task` writes (not one of `ValidStatusValues`). */
  const SwTaskStatus: string := "Todo"

  lemma SwTaskStatusIsNotValid()
    ensures SwTaskStatus !in ValidStatusValues
  {
    assert SwTaskStatus[2] != ValidStatusValues[0][2];
    assert |SwTaskStatus| != |ValidStatusValues[1]|;
    assert SwTaskStatus[0] != ValidStatusValues[2][0];
  }

  /** `SWModelDB`: the overlay tables beside the store they extend. */
  class SWModelDB {
    const db: ModelDB
    var overlays: map<ProjectKind, map<Id, Row>>
    var nextOverlayId: map<ProjectKind, Id>
    var stories: map<Id, Row>
    var nextStoryId: Id
    var swTasks: map<Id, Row>
    var nextSwTaskId: Id

    ghost predicate Valid()
      reads this, db
    {
      db.Valid() && Complete(overlays) && Complete(nextOverlayId) &&
      (forall k: ProjectKind :: Table(overlays[k], nextOverlayId[k], k == Epic)) &&
      (forall k: ProjectKind :: TargetsBelow(overlays[k], db.nextProjectId)) &&
      Table(stories, nextStoryId, true) && TargetsBelow(stories, db.nextPhaseId) &&
      Table(swTasks, nextSwTaskId, true) && TargetsBelow(swTasks, db.nextTaskId)
    }

    /** The overlay tables of a store that has none yet. */
    constructor(db: ModelDB)
      requires db.Valid()
      ensures Valid() && this.db == db
      ensures forall k: ProjectKind :: overlays[k] == map[]
      ensures stories == map[] && swTasks == map[]
    {
      this.db := db;
      overlays := map[Vision := map[], Subsystem := map[], Deliverable := map[], Epic := map[]];
      nextOverlayId := map[Vision := 1, Subsystem := 1, Deliverable := 1, Epic := 1];
      stories, nextStoryId := map[], 1;
      swTasks, nextSwTaskId := map[], 1;
      new;
      forall k: ProjectKind
        ensures k in overlays && k in nextOverlayId && overlays[k] == map[] && nextOverlayId[k] == 1
      {
        match k
        case Vision =>
        case Subsystem =>
        case Deliverable =>
        case Epic =>
      }
    }

    // --- Deletes -------------------------------------------------------------

    /**
     * `delete_sw_overlay_for_project`: in each of the four tables, drops the
     * row referencing the project if there is one.
     */
    method DeleteOverlayForProject(projectId: int)
      requires Valid()
      modifies this
      ensures Valid()
      ensures forall k: ProjectKind :: overlays[k] == Without(old(overlays)[k], projectId)
      ensures forall k: ProjectKind :: !Refers(overlays[k], projectId)
      ensures (forall k: ProjectKind :: !Refers(old(overlays)[k], projectId)) ==> overlays == old(overlays)
      ensures nextOverlayId == old(nextOverlayId)
      ensures stories == old(stories) && nextStoryId == old(nextStoryId)
      ensures swTasks == old(swTasks) && nextSwTaskId == old(nextSwTaskId)
    {
      for i := 0 to |DetectionOrder|
        invariant Valid()
        invariant nextOverlayId == old(nextOverlayId)
        invariant stories == old(stories) && swTasks == old(swTasks)
        invariant nextStoryId == old(nextStoryId) && nextSwTaskId == old(nextSwTaskId)
        invariant DeletedBelow(old(overlays), projectId, i)
      {
        DeleteRanked(old(overlays), projectId, i);
      }
      AllWithout(old(overlays), overlays, projectId);
    }

    /** The tables of rank below `i` have lost their rows for `pid`; the others are as in `start`. */
    ghost predicate DeletedBelow(start: map<ProjectKind, map<Id, Row>>, pid: int, i: int)
      reads this
    {
      Complete(overlays) && Complete(start) &&
      forall k: ProjectKind :: overlays[k] == if Rank(k) < i then Without(start[k], pid) else start[k]
    }

    /** The `i`-th pass of the project delete, in detection order. */
    method DeleteRanked(ghost start: map<ProjectKind, map<Id, Row>>, projectId: int, i: int)
      requires Valid() && 0 <= i < |DetectionOrder|
      requires DeletedBelow(start, projectId, i)
      modifies this
      ensures Valid() && DeletedBelow(start, projectId, i + 1)
      ensures nextOverlayId == old(nextOverlayId)
      ensures stories == old(stories) && swTasks == old(swTasks)
      ensures nextStoryId == old(nextStoryId) && nextSwTaskId == old(nextSwTaskId)
    {
      var kind := DetectionOrder[i];
      RankOfListed(i);
      ghost var before := overlays;
      DeleteFromKind(kind, projectId);
      DeletedUpTo(start, before, overlays, kind, projectId, i);
    }

    /** One pass of the project delete: the table of `kind` loses the project's row. */
    method DeleteFromKind(kind: ProjectKind, projectId: int)
      requires Valid()
      modifies this
      ensures Valid()
      ensures overlays == old(overlays)[kind := Without(old(overlays)[kind], projectId)]
      ensures !Refers(overlays[kind], projectId)
      ensures nextOverlayId == old(nextOverlayId)
      ensures stories == old(stories) && swTasks == old(swTasks)
      ensures nextStoryId == old(nextStoryId) && nextSwTaskId == old(nextSwTaskId)
    {
      WithoutKeepsTable(overlays[kind], projectId, nextOverlayId[kind], db.nextProjectId, kind == Epic);
      var m := DeleteFirstFor(overlays[kind], projectId);
      overlays := overlays[kind := m];
    }

    /** `delete_sw_overlay_for_phase`: drops the story row of the phase, if any. */
    method DeleteOverlayForPhase(phaseId: int)
      requires Valid()
      modifies this
      ensures Valid()
      ensures stories == Without(old(stories), phaseId) && !Refers(stories, phaseId)
      ensures !Refers(old(stories), phaseId) ==> stories == old(stories)
      ensures overlays == old(overlays) && swTasks == old(swTasks)
      ensures nextOverlayId == old(nextOverlayId) && nextStoryId == old(nextStoryId) && nextSwTaskId == old(nextSwTaskId)
    {
      WithoutKeepsTable(stories, phaseId, nextStoryId, db.nextPhaseId, true);
      stories := DeleteFirstFor(stories, phaseId);
    }

    /** `delete_sw_overlay_for_task`: drops the overlay row of the task, if any. */
    method DeleteOverlayForTask(taskId: int)
      requires Valid()
      modifies this
      ensures Valid()
      ensures swTasks == Without(old(swTasks), taskId) && !Refers(swTasks, taskId)
      ensures !Refers(old(swTasks), taskId) ==> swTasks == old(swTasks)
      ensures overlays == old(overlays) && stories == old(stories)
      ensures nextOverlayId == old(nextOverlayId) && nextStoryId == old(nextStoryId) && nextSwTaskId == old(nextSwTaskId)
    {
      WithoutKeepsTable(swTasks, taskId, nextSwTaskId, db.nextTaskId, true);
      swTasks := DeleteFirstFor(swTasks, taskId);
    }

    // --- Type detection --------------------------------------------------------

    /** `get_sw_type`: the overlay kind of a project, tested in `DetectionOrder`. */
    method GetSwType(projectId: int) returns (r: Option<ProjectKind>)
      requires Valid()
      ensures r == SwTypeOf(overlays, projectId)
    {
      var b := HasRowFor(overlays[Vision], projectId);
      if b {
        return Some(Vision);
      }
      b := HasRowFor(overlays[Subsystem], projectId);
      if b {
        return Some(Subsystem);
      }
      b := HasRowFor(overlays[Deliverable], projectId);
      if b {
        return Some(Deliverable);
      }
      b := HasRowFor(overlays[Epic], projectId);
      if b {
        return Some(Epic);
      }
      return None;
    }

    /** `get_sw_phase_type`: whether the phase is a story. */
    method GetSwPhaseType(phaseId: int) returns (isStory: bool)
      requires Valid()
      ensures isStory <==> Refers(stories, phaseId)
    {
      isStory := HasRowFor(stories, phaseId);
    }

    /** `get_sw_task_type`: whether the task has an overlay row. */
    method GetSwTaskType(taskId: int) returns (isSwTask: bool)
      requires Valid()
      ensures isSwTask <==> Refers(swTasks, taskId)
    {
      isSwTask := HasRowFor(swTasks, taskId);
    }

    /**
     * `wrap_project`: the overlay row of the kind `get_sw_type` reports, or
     * the record itself when the project has none (an unsaved record has
     * none, since no row references a missing id).
     */
    method WrapProject(rec: ProjectRecord) returns (r: Wrapped)
      requires Complete(overlays)
      ensures rec.projectId.None? ==> r == Plain(rec)
      ensures rec.projectId.Some? ==> (r.Plain? <==> SwTypeOf(overlays, rec.projectId.value).None?)
      ensures r.Plain? ==> r.record == rec
      ensures r.Overlaid? ==> rec.projectId.Some? && Some(r.kind) == SwTypeOf(overlays, rec.projectId.value) &&
                              r.overlayId in overlays[r.kind] && overlays[r.kind][r.overlayId] == r.row &&
                              r.row.target == rec.projectId.value
    {
      if rec.projectId.None? {
        return Plain(rec);
      }
      var pid := rec.projectId.value;
      var found := FirstWhere(overlays[Vision], (row: Row) => row.target == pid);
      if found.Some? {
        return Overlaid(Vision, found.value, overlays[Vision][found.value]);
      }
      found := FirstWhere(overlays[Subsystem], (row: Row) => row.target == pid);
      if found.Some? {
        return Overlaid(Subsystem, found.value, overlays[Subsystem][found.value]);
      }
      found := FirstWhere(overlays[Deliverable], (row: Row) => row.target == pid);
      if found.Some? {
        return Overlaid(Deliverable, found.value, overlays[Deliverable][found.value]);
      }
      found := FirstWhere(overlays[Epic], (row: Row) => row.target == pid);
      if found.Some? {
        return Overlaid(Epic, found.value, overlays[Epic][found.value]);
      }
      return Plain(rec);
    }

    // --- Factories ---------------------------------------------------------------

    /**
     * `add_proj_base`: refuses a taken name and a missing parent, then
     * inserts the project with an empty description when none is given.
     */
    method AddProjBase(name: string, description: Option<string>, parentId: Option<Id>)
      returns (r: Result<ProjectRecord, StoreError>)
      requires Valid()
      modifies db
      ensures Valid()
      ensures r.Err? <==> BaseFailure(old(db.projects), name, parentId).Some?
      ensures r.Err? ==> r.error == BaseFailure(old(db.projects), name, parentId).value && db.projects == old(db.projects)
      ensures r.Ok? ==> ProjectInserted(old(db.projects), db.projects, old(db.nextProjectId), name, description, parentId) &&
                        r.value == ProjectRecordOf(old(db.nextProjectId), db.projects[old(db.nextProjectId)])
      ensures db.nextProjectId == if r.Ok? then old(db.nextProjectId) + 1 else old(db.nextProjectId)
      ensures db.phases == old(db.phases) && db.tasks == old(db.tasks) && db.blockers == old(db.blockers)
      ensures db.nextPhaseId == old(db.nextPhaseId) && db.nextTaskId == old(db.nextTaskId)
    {
      var key := Lower(name);
      var existing := FirstWhere(db.projects, (p: Project) => p.nameLower == key);
      if existing.Some? {
        return Err(DuplicateName);
      }
      if parentId.Some? && parentId.value !in db.projects {
        return Err(InvalidParent);
      }
      var id := db.nextProjectId;
      var row := Project(name, key, Some(OrEmpty(description)), parentId);
      db.PutProject(id, row);
      r := Ok(ProjectRecordOf(id, row));
    }

    /** The shared tail of the four project factories: the project, then its overlay row. */
    method AttachProject(kind: ProjectKind, name: string, description: Option<string>, parentId: Option<Id>,
                         guardrail: Option<Guardrail>)
      returns (r: Result<(Id, ProjectRecord), StoreError>)
      requires Valid() && (guardrail.Some? <==> kind == Epic)
      modifies this, db
      ensures Valid()
      ensures r.Err? <==> BaseFailure(old(db.projects), name, parentId).Some?
      ensures r.Err? ==> r.error == BaseFailure(old(db.projects), name, parentId).value &&
                         db.projects == old(db.projects) && overlays == old(overlays)
      ensures r.Ok? ==> var pid := old(db.nextProjectId);
                        var oid := old(nextOverlayId)[kind];
                        ProjectInserted(old(db.projects), db.projects, pid, name, description, parentId) &&
                        OverlayAdded(old(overlays), overlays, kind, oid, Row(pid, guardrail)) &&
                        r.value == (oid, ProjectRecordOf(pid, db.projects[pid]))
      ensures db.phases == old(db.phases) && db.tasks == old(db.tasks) && db.blockers == old(db.blockers)
      ensures stories == old(stories) && swTasks == old(swTasks)
    {
      var base := AddProjBase(name, description, parentId);
      if base.Err? {
        return Err(base.error);
      }
      var pid := base.value.projectId.value;
      var oid := AppendOverlay(kind, Row(pid, guardrail));
      r := Ok((oid, base.value));
    }

    /** The overlay insert of the project factories: `row` goes into the table of `kind` under its next id. */
    method AppendOverlay(kind: ProjectKind, row: Row) returns (oid: Id)
      requires Valid() && TargetsBelow(overlays[kind], row.target) && row.target < db.nextProjectId
      requires row.guardrail.Some? == (kind == Epic)
      modifies this
      ensures Valid()
      ensures oid == old(nextOverlayId)[kind] && oid !in old(overlays)[kind]
      ensures OverlayAdded(old(overlays), overlays, kind, oid, row)
      ensures nextOverlayId == old(nextOverlayId)[kind := oid + 1]
      ensures stories == old(stories) && swTasks == old(swTasks)
      ensures nextStoryId == old(nextStoryId) && nextSwTaskId == old(nextSwTaskId)
    {
      oid := nextOverlayId[kind];
      AppendKeepsTable(overlays[kind], oid, row.target, row, kind == Epic);
      TargetsBelowGrows(overlays[kind][oid := row], row.target + 1, db.nextProjectId);
      var table: map<Id, Row> := overlays[kind][oid := row];
      overlays := overlays[kind := table];
      nextOverlayId := nextOverlayId[kind := oid + 1];
    }

    /** `add_vision`: a project without a parent and its Vision row. */
    method AddVision(name: string, description: Option<string>) returns (r: Result<SwProjectRecord, StoreError>)
      requires Valid()
      modifies this, db
      ensures Valid()
      ensures r.Err? <==> BaseFailure(old(db.projects), name, None).Some?
      ensures r.Err? ==> r.error == BaseFailure(old(db.projects), name, None).value &&
                         db.projects == old(db.projects) && overlays == old(overlays)
      ensures r.Ok? ==> r.value.overlayId == old(nextOverlayId)[Vision] && r.value.overlayId !in old(overlays)[Vision]
      ensures r.Ok? ==> var pid := old(db.nextProjectId);
                        ProjectInserted(old(db.projects), db.projects, pid, name, description, None) &&
                        OverlayAdded(old(overlays), overlays, Vision, r.value.overlayId, Row(pid, None)) &&
                        r.value.project == ProjectRecordOf(pid, db.projects[pid])
      ensures db.phases == old(db.phases) && db.tasks == old(db.tasks) && stories == old(stories) && swTasks == old(swTasks)
    {
      var a := AttachProject(Vision, name, description, None, None);
      if a.Err? {
        return Err(a.error);
      }
      r := Ok(SwProjectRecord(a.value.0, a.value.1));
    }

    /** `add_subsystem`: a project under the vision's project, if a vision is given. */
    method AddSubsystem(name: string, description: Option<string>, vision: Option<SwProjectRecord>)
      returns (r: Result<SwProjectRecord, StoreError>)
      requires Valid()
      modifies this, db
      ensures Valid()
      ensures r.Err? <==> BaseFailure(old(db.projects), name, SubsystemParent(vision)).Some?
      ensures r.Err? ==> r.error == BaseFailure(old(db.projects), name, SubsystemParent(vision)).value &&
                         db.projects == old(db.projects) && overlays == old(overlays)
      ensures r.Ok? ==> r.value.overlayId == old(nextOverlayId)[Subsystem] && r.value.overlayId !in old(overlays)[Subsystem]
      ensures r.Ok? ==> var pid := old(db.nextProjectId);
                        ProjectInserted(old(db.projects), db.projects, pid, name, description, SubsystemParent(vision)) &&
                        OverlayAdded(old(overlays), overlays, Subsystem, r.value.overlayId, Row(pid, None)) &&
                        r.value.project == ProjectRecordOf(pid, db.projects[pid])
      ensures db.phases == old(db.phases) && db.tasks == old(db.tasks) && stories == old(stories) && swTasks == old(swTasks)
    {
      var a := AttachProject(Subsystem, name, description, SubsystemParent(vision), None);
      if a.Err? {
        return Err(a.error);
      }
      r := Ok(SwProjectRecord(a.value.0, a.value.1));
    }

    /** `add_deliverable`: a project under the subsystem's, else the vision's project. */
    method AddDeliverable(name: string, description: Option<string>, vision: Option<SwProjectRecord>,
                          subsystem: Option<SwProjectRecord>)
      returns (r: Result<SwProjectRecord, StoreError>)
      requires Valid()
      modifies this, db
      ensures Valid()
      ensures r.Err? <==> BaseFailure(old(db.projects), name, DeliverableParent(vision, subsystem)).Some?
      ensures r.Err? ==> r.error == BaseFailure(old(db.projects), name, DeliverableParent(vision, subsystem)).value &&
                         db.projects == old(db.projects) && overlays == old(overlays)
      ensures r.Ok? ==> r.value.overlayId == old(nextOverlayId)[Deliverable] && r.value.overlayId !in old(overlays)[Deliverable]
      ensures r.Ok? ==> var pid := old(db.nextProjectId);
                        ProjectInserted(old(db.projects), db.projects, pid, name, description, DeliverableParent(vision, subsystem)) &&
                        OverlayAdded(old(overlays), overlays, Deliverable, r.value.overlayId, Row(pid, None)) &&
                        r.value.project == ProjectRecordOf(pid, db.projects[pid])
      ensures db.phases == old(db.phases) && db.tasks == old(db.tasks) && stories == old(stories) && swTasks == old(swTasks)
    {
      var a := AttachProject(Deliverable, name, description, DeliverableParent(vision, subsystem), None);
      if a.Err? {
        return Err(a.error);
      }
      r := Ok(SwProjectRecord(a.value.0, a.value.1));
    }

    /** `add_epic`: a project under the nearest given anchor, with its guardrail. */
    method AddEpic(name: string, description: Option<string>, vision: Option<SwProjectRecord>,
                   subsystem: Option<SwProjectRecord>, deliverable: Option<SwProjectRecord>,
                   guardrail: Option<Guardrail>)
      returns (r: Result<EpicRecord, StoreError>)
      requires Valid()
      modifies this, db
      ensures Valid()
      ensures r.Err? <==> BaseFailure(old(db.projects), name, EpicParent(vision, subsystem, deliverable)).Some?
      ensures r.Err? ==> r.error == BaseFailure(old(db.projects), name, EpicParent(vision, subsystem, deliverable)).value &&
                         db.projects == old(db.projects) && overlays == old(overlays)
      ensures r.Ok? ==> r.value.epicId == old(nextOverlayId)[Epic] && r.value.epicId !in old(overlays)[Epic]
      ensures r.Ok? ==> var pid := old(db.nextProjectId);
                        ProjectInserted(old(db.projects), db.projects, pid, name, description, EpicParent(vision, subsystem, deliverable)) &&
                        OverlayAdded(old(overlays), overlays, Epic, r.value.epicId, Row(pid, Some(r.value.guardrail))) &&
                        r.value.project == ProjectRecordOf(pid, db.projects[pid]) &&
                        r.value.guardrail == EpicGuardrail(guardrail)
      ensures db.phases == old(db.phases) && db.tasks == old(db.tasks) && stories == old(stories) && swTasks == old(swTasks)
    {
      var gt := EpicGuardrail(guardrail);
      var a := AttachProject(Epic, name, description, EpicParent(vision, subsystem, deliverable), Some(gt));
      if a.Err? {
        return Err(a.error);
      }
      r := Ok(EpicRecord(a.value.0, a.value.1, gt));
    }

    /**
     * `add_story`: a phase at the default position in the nearest anchor's
     * project, and its Story row with the inherited guardrail.
     */
    method AddStory(name: string, description: Option<string>, vision: Option<SwProjectRecord>,
                    subsystem: Option<SwProjectRecord>, deliverable: Option<SwProjectRecord>,
                    epic: Option<EpicRecord>, guardrail: Option<Guardrail>)
      returns (r: Result<StoryRecord, StoreError>)
      requires Valid()
      modifies this, db
      ensures Valid()
      ensures var projectId := StoryProject(vision, subsystem, deliverable, epic);
              var failure := StoryFailure(old(db.projects), old(db.phases), name, projectId);
              (r.Err? <==> failure.Some?) &&
              (r.Err? ==> r.error == failure.value && db.phases == old(db.phases) && stories == old(stories)) &&
              (r.Ok? ==> var id := old(db.nextPhaseId);
                         db.phases == old(db.phases)[id := Phase(name, Lower(name), Some(OrEmpty(description)), projectId.value, DefaultPosition)] &&
                         stories == old(stories)[old(nextStoryId) := Row(id, Some(StoryGuardrail(guardrail, epic)))] &&
                         r.value == StoryRecord(old(nextStoryId), Some(id), projectId, StoryGuardrail(guardrail, epic)))
      ensures db.projects == old(db.projects) && db.tasks == old(db.tasks) && db.blockers == old(db.blockers)
      ensures overlays == old(overlays) && swTasks == old(swTasks)
    {
      var projectId := StoryProject(vision, subsystem, deliverable, epic);
      if projectId.None? {
        return Err(NoAnchor);
      }
      var gt := StoryGuardrail(guardrail, epic);
      var key := Lower(name);
      var existing := FirstWhere(db.phases, (p: Phase) => p.nameLower == key);
      if existing.Some? {
        return Err(DuplicateName);
      }
      if projectId.value !in db.projects {
        return Err(InvalidProjectId);
      }
      var id := db.nextPhaseId;
      db.PutPhase(id, Phase(name, key, Some(OrEmpty(description)), projectId.value, DefaultPosition));
      var sid := AppendStory(Row(id, Some(gt)));
      r := Ok(StoryRecord(sid, Some(id), projectId, gt));
    }

    /** The overlay insert of `add_story`: `row` goes into the story table under its next id. */
    method AppendStory(row: Row) returns (sid: Id)
      requires Valid() && TargetsBelow(stories, row.target) && row.target < db.nextPhaseId && row.guardrail.Some?
      modifies this
      ensures Valid()
      ensures sid == old(nextStoryId) && sid !in old(stories)
      ensures stories == old(stories)[sid := row] && nextStoryId == sid + 1
      ensures overlays == old(overlays) && nextOverlayId == old(nextOverlayId)
      ensures swTasks == old(swTasks) && nextSwTaskId == old(nextSwTaskId)
    {
      sid := nextStoryId;
      AppendKeepsTable(stories, sid, row.target, row, true);
      TargetsBelowGrows(stories[sid := row], row.target + 1, db.nextPhaseId);
      stories, nextStoryId := stories[sid := row], sid + 1;
    }

    /**
     * `add_task`: a task with status "Todo" in the anchor's project (and the
     * story's phase), and its overlay row with the inherited guardrail.
     */
    method AddTask(name: string, description: Option<string>, vision: Option<SwProjectRecord>,
                   subsystem: Option<SwProjectRecord>, deliverable: Option<SwProjectRecord>,
                   epic: Option<EpicRecord>, story: Option<StoryRecord>, guardrail: Option<Guardrail>)
      returns (r: Result<SwTaskRecord, StoreError>)
      requires Valid()
      modifies this, db
      ensures Valid()
      ensures var (projectId, phaseId) := TaskAnchor(vision, subsystem, deliverable, epic, story);
              var failure := TaskFailure(old(db.projects), old(db.phases), old(db.tasks), name, projectId, phaseId);
              var gt := TaskGuardrail(guardrail, story, epic);
              (r.Err? <==> failure.Some?) &&
              (r.Err? ==> r.error == failure.value && db.tasks == old(db.tasks) && swTasks == old(swTasks)) &&
              (r.Ok? ==> var id := old(db.nextTaskId);
                         var row := Task(name, Lower(name), SwTaskStatus, Some(OrEmpty(description)), projectId, phaseId);
                         db.tasks == old(db.tasks)[id := row] &&
                         swTasks == old(swTasks)[old(nextSwTaskId) := Row(id, Some(gt))] &&
                         r.value == SwTaskRecord(old(nextSwTaskId), TaskRecordOf(id, row), gt))
      ensures db.projects == old(db.projects) && db.phases == old(db.phases) && db.blockers == old(db.blockers)
      ensures overlays == old(overlays) && stories == old(stories)
    {
      var (projectId, phaseId) := TaskAnchor(vision, subsystem, deliverable, epic, story);
      if projectId.None? {
        return Err(NoAnchor);
      }
      var gt := TaskGuardrail(guardrail, story, epic);
      var key := Lower(name);
      var existing := FirstWhere(db.tasks, (t: Task) => t.nameLower == key);
      if existing.Some? {
        return Err(DuplicateName);
      }
      if projectId.value !in db.projects {
        return Err(InvalidProjectId);
      }
      if phaseId.Some? && phaseId.value !in db.phases {
        return Err(InvalidPhaseId);
      }
      var id := db.nextTaskId;
      var row := Task(name, key, SwTaskStatus, Some(OrEmpty(description)), projectId, phaseId);
      db.PutTask(id, row);
      var sid := AppendSwTask(Row(id, Some(gt)));
      r := Ok(SwTaskRecord(sid, TaskRecordOf(id, row), gt));
    }

    /** The overlay insert of `add_task`: `row` goes into the task table under its next id. */
    method AppendSwTask(row: Row) returns (sid: Id)
      requires Valid() && TargetsBelow(swTasks, row.target) && row.target < db.nextTaskId && row.guardrail.Some?
      modifies this
      ensures Valid()
      ensures sid == old(nextSwTaskId) && sid !in old(swTasks)
      ensures swTasks == old(swTasks)[sid := row] && nextSwTaskId == sid + 1
      ensures overlays == old(overlays) && nextOverlayId == old(nextOverlayId)
      ensures stories == old(stories) && nextStoryId == old(nextStoryId)
    {
      sid := nextSwTaskId;
      AppendKeepsTable(swTasks, sid, row.target, row, true);
      TargetsBelowGrows(swTasks[sid := row], row.target + 1, db.nextTaskId);
      swTasks, nextSwTaskId := swTasks[sid := row], sid + 1;
    }
  }
}
