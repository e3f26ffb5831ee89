/**
 * Domains: a catalog of named stores read from a JSON configuration, and the
 * manager that remembers the domain, project, phase and task last used,
 * writing them through to a state file and restoring them on start-up.
 * The configuration and the state file are given as parsed values; which
 * database files exist is given as the map from resolved path to the store
 * the file holds.
 */
module Domains {
  import opened Common
  import opened Schema
  import opened ModelStore

  // ---------------------------------------------------------------------------
  // Configuration.

  /** A parsed JSON value; an object lists its keys in document order. */
  datatype Json =
    | JNull
    | JBool(b: bool)
    | JNum(n: int)
    | JStr(s: string)
    | JList(items: seq<Json>)
    | JObj(keys: seq<string>, fields: map<string, Json>)

  /** What the JSON parser produces for an object: each key once, in order. */
  predicate WellFormedObject(j: Json)
  {
    j.JObj? ==>
      (forall i :: 0 <= i < |j.keys| ==> j.keys[i] in j.fields) &&
      (forall k :: k in j.fields ==> k in j.keys) &&
      (forall i, k :: 0 <= i < k < |j.keys| ==> j.keys[i] != j.keys[k])
  }

  datatype DomainMode = Default | Software

  /** A database path from the configuration, resolved. */
  datatype ResolvedPath =
    | Absolute(path: string)
    /** Joined to the directory holding the configuration file. */
    | UnderConfig(rest: string)

  datatype ConfigError =
    | NotAnObject
    | NoDatabases
    | DatabasesNotAnObject
    | EntryNotAnObject(name: string)
    | MissingPath(name: string)
    | MissingDescription(name: string)
    | PathNotText(name: string)
    | UnresolvablePath(text: string)
    | FileMissing(name: string)
    | UnknownMode(name: string)

  /** The configuration text a resolved path came from. */
  function PathText(p: ResolvedPath): string
  {
    match p
    case Absolute(path) => path
    case UnderConfig(rest) => "./" + rest
  }

  /**
   * The path rule: text starting with `/` is absolute, text starting with
   * `./` is relative to the configuration file, and anything else is refused.
   * A resolved path gives back exactly the text it came from.
   */
  function ResolvePath(text: string): (r: Result<ResolvedPath, ConfigError>)
    ensures r.Err? <==> !StartsWith(text, "/") && !StartsWith(text, "./")
    ensures r.Err? ==> r.error == UnresolvablePath(text)
    ensures r.Ok? ==> PathText(r.value) == text
    ensures r.Ok? ==> (r.value.Absolute? <==> StartsWith(text, "/"))
  {
    if StartsWith(text, "/") then Ok(Absolute(text))
    else if StartsWith(text, "./") then
      assert text == "./" + text[2..];
      Ok(UnderConfig(text[2..]))
    else Err(UnresolvablePath(text))
  }

  /** The value `auto()` gives each member of the string enumeration: its lower-cased name. */
  function ModeName(m: DomainMode): string
  {
    match m
    case Default => "default"
    case Software => "software"
  }

  /**
   * `DomainMode(value)`: the member whose value is `v`; any other value
   * raises, reported for the entry `name`.
   */
  function ModeOf(name: string, v: Json): (r: Result<DomainMode, ConfigError>)
    ensures r.Ok? ==> v == JStr(ModeName(r.value))
    ensures r.Err? <==> forall m :: v != JStr(ModeName(m))
    ensures r.Err? ==> r.error == UnknownMode(name)
  {
    if v == JStr("default") then Ok(Default)
    else if v == JStr("software") then Ok(Software)
    else Err(UnknownMode(name))
  }

  datatype Domain = Domain(name: string, dbPath: ResolvedPath, description: Json, db: ModelDB, mode: DomainMode)

  /**
   * One entry of the `databases` object, checked in the source's order: an
   * object with `path` and `description`, a path that resolves to an
   * existing file, and an optional known `domain_mode` (DEFAULT if absent).
   */
  function DomainEntry(name: string, data: Json, dbs: map<ResolvedPath, ModelDB>): (r: Result<Domain, ConfigError>)
    ensures r.Ok? ==> data.JObj? && "path" in data.fields && "description" in data.fields &&
                      data.fields["path"].JStr? && PathText(r.value.dbPath) == data.fields["path"].s &&
                      r.value.dbPath in dbs && r.value.db == dbs[r.value.dbPath] &&
                      r.value.name == name && r.value.description == data.fields["description"]
    ensures r.Ok? && "domain_mode" !in data.fields ==> r.value.mode == Default
    ensures r.Ok? && "domain_mode" in data.fields ==> ModeOf(name, data.fields["domain_mode"]) == Ok(r.value.mode)
    ensures r.Ok? <==> data.JObj? && "path" in data.fields && "description" in data.fields && data.fields["path"].JStr? &&
                       ResolvePath(data.fields["path"].s).Ok? && ResolvePath(data.fields["path"].s).value in dbs &&
                       ("domain_mode" in data.fields ==> ModeOf(name, data.fields["domain_mode"]).Ok?)
    ensures data.JObj? && "path" in data.fields && "description" in data.fields && data.fields["path"].JStr? &&
            ResolvePath(data.fields["path"].s).Ok? && ResolvePath(data.fields["path"].s).value in dbs &&
            "domain_mode" in data.fields && ModeOf(name, data.fields["domain_mode"]).Err? ==>
              r == Err(UnknownMode(name))
    ensures data.JObj? && "path" in data.fields && "description" in data.fields && data.fields["path"].JStr? &&
            !StartsWith(data.fields["path"].s, "/") && !StartsWith(data.fields["path"].s, "./") ==>
              r == Err(UnresolvablePath(data.fields["path"].s))
  {
    if !data.JObj? then Err(EntryNotAnObject(name))
    else if "path" !in data.fields then Err(MissingPath(name))
    else if "description" !in data.fields then Err(MissingDescription(name))
    else if !data.fields["path"].JStr? then Err(PathNotText(name))
    else
      var resolved := ResolvePath(data.fields["path"].s);
      if resolved.Err? then Err(resolved.error)
      else if resolved.value !in dbs then Err(FileMissing(name))
      else
        var mode := if "domain_mode" in data.fields then ModeOf(name, data.fields["domain_mode"]) else Ok(Default);
        if mode.Err? then Err(mode.error)
        else Ok(Domain(name, resolved.value, data.fields["description"], dbs[resolved.value], mode.value))
  }

  datatype Catalog = Catalog(names: seq<string>, domains: map<string, Domain>)

  /** The configuration is an object whose `databases` entry is an object. */
  predicate HasDatabases(config: Json)
  {
    config.JObj? && "databases" in config.fields && config.fields["databases"].JObj?
  }

  /** Every entry of `databases` is accepted. */
  predicate EntriesValid(config: Json, dbs: map<ResolvedPath, ModelDB>)
    requires HasDatabases(config)
  {
    var d := config.fields["databases"];
    forall n :: n in d.fields ==> DomainEntry(n, d.fields[n], dbs).Ok?
  }

  /**
   * `DomainCatalog.from_json_config`: builds the catalog entry by entry, in
   * the order of the configuration, failing on the first bad entry.
   */
  method FromJsonConfig(config: Json, dbs: map<ResolvedPath, ModelDB>) returns (r: Result<Catalog, ConfigError>)
    requires WellFormedObject(config)
    requires config.JObj? && "databases" in config.fields ==> WellFormedObject(config.fields["databases"])
    ensures !config.JObj? ==> r == Err(NotAnObject)
    ensures config.JObj? && "databases" !in config.fields ==> r == Err(NoDatabases)
    ensures config.JObj? && "databases" in config.fields && !config.fields["databases"].JObj? ==> r == Err(DatabasesNotAnObject)
    ensures r.Ok? <==> HasDatabases(config) && EntriesValid(config, dbs)
    ensures r.Ok? ==> r.value.names == config.fields["databases"].keys &&
                      r.value.domains.Keys == config.fields["databases"].fields.Keys &&
                      forall n :: n in r.value.domains ==>
                        r.value.domains[n] == DomainEntry(n, config.fields["databases"].fields[n], dbs).value
  {
    if !config.JObj? {
      return Err(NotAnObject);
    }
    if "databases" !in config.fields {
      return Err(NoDatabases);
    }
    var d := config.fields["databases"];
    if !d.JObj? {
      return Err(DatabasesNotAnObject);
    }
    var domains := CollectDomains(d, dbs);
    if domains.Err? {
      return Err(domains.error);
    }
    r := Ok(Catalog(d.keys, domains.value));
  }

  /** The loop of `from_json_config` over the entries of `databases`, in their order. */
  method CollectDomains(d: Json, dbs: map<ResolvedPath, ModelDB>) returns (r: Result<map<string, Domain>, ConfigError>)
    requires d.JObj? && WellFormedObject(d)
    ensures r.Ok? <==> forall n :: n in d.fields ==> DomainEntry(n, d.fields[n], dbs).Ok?
    ensures r.Ok? ==> r.value.Keys == d.fields.Keys &&
                      forall n :: n in r.value ==> r.value[n] == DomainEntry(n, d.fields[n], dbs).value
  {
    var domains: map<string, Domain> := map[];
    for i := 0 to |d.keys|
      invariant forall n :: n in domains <==> n in d.keys[..i]
      invariant forall n :: n in domains ==> n in d.fields && DomainEntry(n, d.fields[n], dbs) == Ok(domains[n])
    {
      var name := d.keys[i];
      var entry := DomainEntry(name, d.fields[name], dbs);
      if entry.Err? {
        return Err(entry.error);
      }
      assert d.keys[..i + 1] == d.keys[..i] + [name];
      domains := domains[name := entry.value];
    }
    assert d.keys[..|d.keys|] == d.keys;
    r := Ok(domains);
  }

  // ---------------------------------------------------------------------------
  // The manager's state.

  /** The ids `_save_state` writes. */
  datatype SavedState = SavedState(lastDomain: Option<string>, lastProjectId: Option<Id>,
                                   lastPhaseId: Option<Id>, lastTaskId: Option<Id>)

  /** The state file: missing, not JSON, or holding a saved state. */
  datatype StateFile = Absent | Unreadable | Saved(state: SavedState)

  datatype ManagerError =
    | Config(error: ConfigError)
    | BadStateFile
    | NoDomains
    | NoSuchDomain
    | NoSuchProject
    | NoSuchPhase
    | NoSuchTask

  /** `get_project_by_id`. */
  function ProjectById(projects: map<Id, Project>, id: Option<Id>): (r: Option<ProjectRecord>)
    ensures r.Some? <==> id.Some? && id.value in projects
    ensures r.Some? ==> r.value == ProjectRecordOf(id.value, projects[id.value])
  {
    if id.Some? && id.value in projects then Some(ProjectRecordOf(id.value, projects[id.value])) else None
  }

  /** `get_task_by_id`. */
  function TaskById(tasks: map<Id, Task>, id: Option<Id>): (r: Option<TaskRecord>)
    ensures r.Some? <==> id.Some? && id.value in tasks
    ensures r.Some? ==> r.value == TaskRecordOf(id.value, tasks[id.value])
  {
    if id.Some? && id.value in tasks then Some(TaskRecordOf(id.value, tasks[id.value])) else None
  }

  /** The id of a remembered project, if one is remembered. */
  function ProjectIdOf(p: Option<ProjectRecord>): Option<Id>
  {
    if p.Some? then p.value.projectId else None
  }

  function PhaseIdOf(p: Option<PhaseRecord>): Option<Id>
  {
    if p.Some? then p.value.phaseId else None
  }

  function TaskIdOf(t: Option<TaskRecord>): Option<Id>
  {
    if t.Some? then t.value.taskId else None
  }

  /** An id kept on reload when its row still exists, dropped otherwise. */
  function Kept(id: Option<Id>, present: set<Id>): (r: Option<Id>)
    ensures r.Some? <==> id.Some? && id.value in present
    ensures r.Some? ==> r == id
  {
    if id.Some? && id.value in present then id else None
  }

  /** The saved domain is restored only when it is non-empty and in the catalog. */
  predicate Restorable(s: SavedState, domains: map<string, Domain>)
  {
    s.lastDomain.Some? && s.lastDomain.value != "" && s.lastDomain.value in domains
  }

  /**
   * The ids a fresh manager holds after loading `s`: the domain when it is
   * restorable, and each saved id whose row that domain's store still has.
   */
  ghost function Reloaded(s: SavedState, domains: map<string, Domain>): SavedState
    reads set n | n in domains :: domains[n].db
  {
    if Restorable(s, domains) then
      var db := domains[s.lastDomain.value].db;
      SavedState(s.lastDomain, Kept(s.lastProjectId, db.projects.Keys),
                 Kept(s.lastPhaseId, db.phases.Keys), Kept(s.lastTaskId, db.tasks.Keys))
    else SavedState(None, None, None, None)
  }

  class DPMManager {
    const names: seq<string>
    const domains: map<string, Domain>
    var lastDomain: Option<string>
    var lastProject: Option<ProjectRecord>
    var lastPhase: Option<PhaseRecord>
    var lastTask: Option<TaskRecord>
    var stateFile: StateFile

    /** The ids the state file would hold if saved now. */
    function Snapshot(): SavedState
      reads this
    {
      SavedState(lastDomain, ProjectIdOf(lastProject), PhaseIdOf(lastPhase), TaskIdOf(lastTask))
    }

    /** The catalog order lists exactly the catalog's domains. */
    ghost predicate Valid()
      reads this
    {
      (forall i :: 0 <= i < |names| ==> names[i] in domains) &&
      (forall n :: n in domains ==> n in names) &&
      (lastDomain.Some? ==> lastDomain.value in domains)
    }

    /** A manager over `catalog` remembering nothing yet. */
    constructor (catalog: Catalog, stateFile: StateFile)
      requires forall i :: 0 <= i < |catalog.names| ==> catalog.names[i] in catalog.domains
      requires forall n :: n in catalog.domains ==> n in catalog.names
      ensures Valid()
      ensures names == catalog.names && domains == catalog.domains && this.stateFile == stateFile
      ensures lastDomain.None? && lastProject.None? && lastPhase.None? && lastTask.None?
    {
      names, domains := catalog.names, catalog.domains;
      lastDomain, lastProject, lastPhase, lastTask := None, None, None, None;
      this.stateFile := stateFile;
    }

    /** `_save_state`: writes the current ids to the state file. */
    method SaveState()
      modifies this
      ensures stateFile == Saved(old(Snapshot()))
      ensures lastDomain == old(lastDomain) && lastProject == old(lastProject) &&
              lastPhase == old(lastPhase) && lastTask == old(lastTask)
    {
      stateFile := Saved(SavedState(lastDomain, ProjectIdOf(lastProject), PhaseIdOf(lastPhase), TaskIdOf(lastTask)));
    }

    /**
     * `_load_state`: restores from a saved state the domain, if restorable,
     * and the records of that domain's store that still exist.
     */
    method LoadState()
      requires Valid() && !stateFile.Unreadable?
      requires lastDomain.None? && lastProject.None? && lastPhase.None? && lastTask.None?
      modifies this
      ensures Valid() && stateFile == old(stateFile)
      ensures stateFile.Absent? ==> Snapshot() == SavedState(None, None, None, None)
      ensures stateFile.Saved? ==> Snapshot() == Reloaded(stateFile.state, domains)
      ensures lastProject.Some? ==>
                (lastDomain.Some? && lastProject == ProjectById(domains[lastDomain.value].db.projects, lastProject.value.projectId))
      ensures lastTask.Some? ==>
                (lastDomain.Some? && lastTask == TaskById(domains[lastDomain.value].db.tasks, lastTask.value.taskId))
    {
      if stateFile.Absent? {
        return;
      }
      var s := stateFile.state;
      var domain := s.lastDomain;
      if domain.Some? && domain.value != "" && domain.value in domains {
        lastDomain := domain;
        var db := domains[domain.value].db;
        assert db in set n | n in domains :: domains[n].db;
        if s.lastProjectId.Some? {
          lastProject := ProjectById(db.projects, s.lastProjectId);
        }
        if s.lastPhaseId.Some? {
          lastPhase := PhaseById(db.phases, s.lastPhaseId);
        }
        if s.lastTaskId.Some? {
          lastTask := TaskById(db.tasks, s.lastTaskId);
        }
      }
    }

    /**
     * `get_default_domain`: the remembered domain, or else the catalog's
     * first domain, which is then remembered. An empty catalog has no
     * first domain.
     */
    method GetDefaultDomain() returns (r: Result<string, ManagerError>)
      requires Valid()
      modifies this
      ensures Valid()
      ensures lastProject == old(lastProject) && lastPhase == old(lastPhase) && lastTask == old(lastTask)
      ensures stateFile == old(stateFile)
      ensures old(lastDomain).Some? && old(lastDomain).value != "" ==> r == Ok(old(lastDomain).value) && lastDomain == old(lastDomain)
      ensures (old(lastDomain).None? || old(lastDomain).value == "") && names == [] ==> r == Err(NoDomains) && lastDomain == old(lastDomain)
      ensures (old(lastDomain).None? || old(lastDomain).value == "") && names != [] ==> r == Ok(names[0]) && lastDomain == Some(names[0])
      ensures r.Ok? ==> r.value in domains && lastDomain == Some(r.value)
    {
      if lastDomain.None? || lastDomain.value == "" {
        if names == [] {
          return Err(NoDomains);
        }
        lastDomain := Some(names[0]);
      }
      r := Ok(lastDomain.value);
    }

    /** `set_last_domain`: an unknown domain changes nothing; a known one is remembered and saved. */
    method SetLastDomain(domain: string) returns (r: Result<(), ManagerError>)
      requires Valid()
      modifies this
      ensures Valid()
      ensures lastProject == old(lastProject) && lastPhase == old(lastPhase) && lastTask == old(lastTask)
      ensures r.Err? <==> domain !in domains
      ensures r.Err? ==> r.error == NoSuchDomain && lastDomain == old(lastDomain) && stateFile == old(stateFile)
      ensures r.Ok? ==> lastDomain == Some(domain) && stateFile == Saved(Snapshot())
    {
      if domain !in domains {
        return Err(NoSuchDomain);
      }
      lastDomain := Some(domain);
      SaveState();
      r := Ok(());
    }

    /**
     * `set_last_project`: an unknown domain changes nothing. A project the
     * domain's store lacks fails after the domain was already switched, with
     * nothing saved. Otherwise the project is remembered and the state saved.
     */
    method SetLastProject(domain: string, project: ProjectRecord) returns (r: Result<(), ManagerError>)
      requires Valid()
      modifies this
      ensures Valid()
      ensures lastPhase == old(lastPhase) && lastTask == old(lastTask)
      ensures domain !in domains ==> r == Err(NoSuchDomain) && lastDomain == old(lastDomain) &&
                                     lastProject == old(lastProject) && stateFile == old(stateFile)
      ensures domain in domains ==> lastDomain == Some(domain)
      ensures domain in domains && ProjectById(domains[domain].db.projects, project.projectId).None? ==>
                r == Err(NoSuchProject) && lastProject == old(lastProject) && stateFile == old(stateFile)
      ensures r.Ok? <==> domain in domains && ProjectById(domains[domain].db.projects, project.projectId).Some?
      ensures r.Ok? ==> lastProject == Some(project) && stateFile == Saved(Snapshot())
    {
      if domain !in domains {
        return Err(NoSuchDomain);
      }
      lastDomain := Some(domain);
      var db := domains[domain].db;
      var check := ProjectById(db.projects, project.projectId);
      if check.None? {
        return Err(NoSuchProject);
      }
      lastProject := Some(project);
      SaveState();
      r := Ok(());
    }

    /**
     * `set_last_phase`: as `SetLastProject`, for a phase; on success the
     * phase's project, looked up in the domain's store, becomes the
     * remembered project too.
     */
    method SetLastPhase(domain: string, phase: PhaseRecord) returns (r: Result<(), ManagerError>)
      requires Valid()
      modifies this
      ensures Valid()
      ensures lastTask == old(lastTask)
      ensures domain !in domains ==> r == Err(NoSuchDomain) && lastDomain == old(lastDomain) &&
                                     lastProject == old(lastProject) && lastPhase == old(lastPhase) &&
                                     stateFile == old(stateFile)
      ensures domain in domains ==> lastDomain == Some(domain)
      ensures domain in domains && !(phase.phaseId.Some? && phase.phaseId.value in domains[domain].db.phases) ==>
                r == Err(NoSuchPhase) && lastProject == old(lastProject) && lastPhase == old(lastPhase) &&
                stateFile == old(stateFile)
      ensures r.Ok? <==> domain in domains && phase.phaseId.Some? && phase.phaseId.value in domains[domain].db.phases
      ensures r.Ok? ==> lastPhase == Some(phase) &&
                        lastProject == ProjectById(domains[domain].db.projects, phase.projectId) &&
                        stateFile == Saved(Snapshot())
    {
      if domain !in domains {
        return Err(NoSuchDomain);
      }
      lastDomain := Some(domain);
      var db := domains[domain].db;
      var check := PhaseById(db.phases, phase.phaseId);
      if check.None? {
        return Err(NoSuchPhase);
      }
      lastPhase := Some(phase);
      lastProject := ProjectById(db.projects, phase.projectId);
      SaveState();
      r := Ok(());
    }

    /**
     * `set_last_task`: as `SetLastProject`, for a task; on success the
     * task's project becomes the remembered project, and its phase, when it
     * has one the store still holds, the remembered phase.
     */
    method SetLastTask(domain: string, task: TaskRecord) returns (r: Result<(), ManagerError>)
      requires Valid()
      modifies this
      ensures Valid()
      ensures domain !in domains ==> r == Err(NoSuchDomain) && lastDomain == old(lastDomain) &&
                                     lastProject == old(lastProject) && lastPhase == old(lastPhase) &&
                                     lastTask == old(lastTask) && stateFile == old(stateFile)
      ensures domain in domains ==> lastDomain == Some(domain)
      ensures domain in domains && TaskById(domains[domain].db.tasks, task.taskId).None? ==>
                r == Err(NoSuchTask) && lastProject == old(lastProject) && lastPhase == old(lastPhase) &&
                lastTask == old(lastTask) && stateFile == old(stateFile)
      ensures r.Ok? <==> domain in domains && TaskById(domains[domain].db.tasks, task.taskId).Some?
      ensures r.Ok? ==> lastTask == Some(task) &&
                        lastProject == ProjectById(domains[domain].db.projects, task.projectId) &&
                        stateFile == Saved(Snapshot())
      ensures r.Ok? && !(task.phaseId.Some? && task.phaseId.value in domains[domain].db.phases) ==>
                lastPhase == old(lastPhase)
      ensures r.Ok? && task.phaseId.Some? && task.phaseId.value in domains[domain].db.phases ==>
                lastPhase.Some? && lastPhase.value.phaseId == task.phaseId &&
                lastPhase.value == PhaseRecordOf(task.phaseId.value, domains[domain].db.phases[task.phaseId.value],
                                                 lastPhase.value.followsId)
    {
      if domain !in domains {
        return Err(NoSuchDomain);
      }
      lastDomain := Some(domain);
      var db := domains[domain].db;
      var check := TaskById(db.tasks, task.taskId);
      if check.None? {
        return Err(NoSuchTask);
      }
      lastTask := Some(task);
      lastProject := if task.projectId.Some? then ProjectById(db.projects, task.projectId) else None;
      var phase := PhaseById(db.phases, task.phaseId);
      if phase.Some? {
        lastPhase := phase;
      }
      SaveState();
      r := Ok(());
    }
  }

  /**
   * A restart: `m` saves its state, and a new manager over the same catalog
   * and state file loads it. With a remembered domain, the domain comes back
   * and so does each remembered id whose row that domain's store still has;
   * a stale id comes back as None. Without one, nothing comes back.
   */
  method Restart(m: DPMManager) returns (next: DPMManager)
    requires m.Valid()
    modifies m
    ensures next.domains == m.domains && next.stateFile == m.stateFile == Saved(old(m.Snapshot()))
    ensures m.Snapshot() == old(m.Snapshot())
    ensures var before, after := old(m.Snapshot()), next.Snapshot();
            before.lastDomain.Some? && before.lastDomain.value != "" ==>
              var db := m.domains[before.lastDomain.value].db;
              after == SavedState(before.lastDomain, Kept(before.lastProjectId, db.projects.Keys),
                                  Kept(before.lastPhaseId, db.phases.Keys), Kept(before.lastTaskId, db.tasks.Keys))
    ensures old(m.lastDomain).None? || old(m.lastDomain) == Some("") ==> next.Snapshot() == SavedState(None, None, None, None)
  {
    m.SaveState();
    next := new DPMManager(Catalog(m.names, m.domains), m.stateFile);
    next.LoadState();
  }

  /**
   * `DPMManager(config_path)`: builds the catalog, starts with nothing
   * remembered, then loads the state file; a configuration the catalog
   * refuses, or a state file that is not JSON, makes construction fail.
   */
  method OpenManager(config: Json, dbs: map<ResolvedPath, ModelDB>, stateFile: StateFile)
    returns (r: Result<DPMManager, ManagerError>)
    requires WellFormedObject(config)
    requires config.JObj? && "databases" in config.fields ==> WellFormedObject(config.fields["databases"])
    ensures r.Err? <==> !(HasDatabases(config) && EntriesValid(config, dbs)) || stateFile.Unreadable?
    ensures r.Err? && !(HasDatabases(config) && EntriesValid(config, dbs)) ==> r.error.Config?
    ensures r.Err? && HasDatabases(config) && EntriesValid(config, dbs) ==> r.error == BadStateFile
    ensures r.Ok? ==> fresh(r.value) && r.value.Valid() && r.value.stateFile == stateFile &&
                      r.value.names == config.fields["databases"].keys
    ensures r.Ok? && stateFile.Absent? ==> r.value.Snapshot() == SavedState(None, None, None, None)
    ensures r.Ok? && stateFile.Saved? ==> r.value.Snapshot() == Reloaded(stateFile.state, r.value.domains)
  {
    var catalog := FromJsonConfig(config, dbs);
    if catalog.Err? {
      return Err(Config(catalog.error));
    }
    var m := new DPMManager(catalog.value, stateFile);
    if stateFile.Unreadable? {
      return Err(BadStateFile);
    }
    m.LoadState();
    r := Ok(m);
  }
}
