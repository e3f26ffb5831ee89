/**
 * The four tables of the store (projects, phases, tasks and blocker edges)
 * and the record wrappers through which callers read and change one row.
 * A record is a snapshot of its row plus the row id; the id is None before
 * the first save and after a delete.
 */
module Schema {
  import opened Common

  datatype Project = Project(name: string, nameLower: string, description: Option<string>, parentId: Option<Id>)

  datatype Phase = Phase(name: string, nameLower: string, description: Option<string>, projectId: Id, position: real)

  datatype Task = Task(name: string, nameLower: string, status: string, description: Option<string>,
                       projectId: Option<Id>, phaseId: Option<Id>)

  /** `item` cannot proceed until `required` is done (the source column is `requires`). */
  datatype Blocker = Blocker(item: Id, required: Id)

  /** The statuses `ModelDB.add_task` accepts. */
  const ValidStatusValues: seq<string> := ["ToDo", "Doing", "Done"]
  const DoneStatus: string := "Done"

  /** The column default of `Phase.position`. */
  const DefaultPosition: real := 1.0

  /** The name key a row is stored and looked up under. */
  predicate Keyed(name: string, nameLower: string)
  {
    nameLower == Lower(name)
  }

  datatype ProjectRecord = ProjectRecord(projectId: Option<Id>, name: string, nameLower: string,
                                         description: Option<string>, parentId: Option<Id>)
  {
    /** The `name` setter: the lookup key follows the name. */
    function WithName(v: string): (r: ProjectRecord)
      ensures r.name == v && Keyed(r.name, r.nameLower)
      ensures r.(name := name, nameLower := nameLower) == this
    {
      this.(name := v, nameLower := Lower(v))
    }

    /** The `parent` setter takes the parent record's id, whatever it is. */
    function WithParent(parent: ProjectRecord): (r: ProjectRecord)
      ensures r.parentId == parent.projectId
      ensures r.(parentId := parentId) == this
    {
      this.(parentId := parent.projectId)
    }
  }

  datatype PhaseRecord = PhaseRecord(phaseId: Option<Id>, name: string, nameLower: string,
                                     description: Option<string>, projectId: Option<Id>,
                                     position: real, followsId: Option<Id>)
  {
    function WithName(v: string): (r: PhaseRecord)
      ensures r.name == v && Keyed(r.name, r.nameLower)
      ensures r.(name := name, nameLower := nameLower) == this
    {
      this.(name := v, nameLower := Lower(v))
    }

    /** The `follows` setter only records the id to link after; nothing is written. */
    function WithFollows(f: PhaseRecord): (r: PhaseRecord)
      ensures r.followsId == f.phaseId
      ensures r.(followsId := followsId) == this
    {
      this.(followsId := f.phaseId)
    }
  }

  datatype TaskRecord = TaskRecord(taskId: Option<Id>, name: string, nameLower: string, status: string,
                                   description: Option<string>, projectId: Option<Id>, phaseId: Option<Id>)
  {
    function WithName(v: string): (r: TaskRecord)
      ensures r.name == v && Keyed(r.name, r.nameLower)
      ensures r.(name := name, nameLower := nameLower) == this
    {
      this.(name := v, nameLower := Lower(v))
    }

    /**
     * The `project` setter: moving the task to a different project drops its
     * phase, since a phase belongs to one project.
     */
    function WithProject(p: ProjectRecord): (r: TaskRecord)
      ensures r.projectId == p.projectId
      ensures p.projectId != projectId ==> r.phaseId.None?
      ensures p.projectId == projectId ==> r.phaseId == phaseId
      ensures r.(projectId := projectId, phaseId := phaseId) == this
    {
      if projectId != p.projectId then this.(phaseId := None, projectId := p.projectId)
      else this.(projectId := p.projectId)
    }

    /** The `phase` setter only sets the phase id; the project is left alone. */
    function WithPhase(ph: PhaseRecord): (r: TaskRecord)
      ensures r.phaseId == ph.phaseId
      ensures r.(phaseId := phaseId) == this
    {
      this.(phaseId := ph.phaseId)
    }
  }

  function ProjectRecordOf(id: Id, p: Project): ProjectRecord
  {
    ProjectRecord(Some(id), p.name, p.nameLower, p.description, p.parentId)
  }

  function TaskRecordOf(id: Id, t: Task): TaskRecord
  {
    TaskRecord(Some(id), t.name, t.nameLower, t.status, t.description, t.projectId, t.phaseId)
  }

  function PhaseRecordOf(id: Id, p: Phase, followsId: Option<Id>): PhaseRecord
  {
    PhaseRecord(Some(id), p.name, p.nameLower, p.description, Some(p.projectId), p.position, followsId)
  }

  /**
   * A task's phase, when it has one, belongs to the task's own project: the
   * condition `save_task_record` enforces before writing.
   */
  predicate PhaseAgrees(phases: map<Id, Phase>, projectId: Option<Id>, phaseId: Option<Id>)
  {
    phaseId.None? || (phaseId.value in phases && Some(phases[phaseId.value].projectId) == projectId)
  }

  /**
   * Assigning a project never breaks the phase/project agreement of a task:
   * either the project is unchanged or the phase is dropped.
   */
  lemma WithProjectKeepsAgreement(phases: map<Id, Phase>, t: TaskRecord, p: ProjectRecord)
    requires PhaseAgrees(phases, t.projectId, t.phaseId)
    ensures var r := t.WithProject(p); PhaseAgrees(phases, r.projectId, r.phaseId)
  {
  }
}
