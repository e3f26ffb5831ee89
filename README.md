# dpm store layer, modelled in Dafny

This project models the store layer of dpm, a small project manager. The
store keeps four tables: projects, phases, tasks and blocker edges. It has
two implementations, the SQLModel `ModelDB` and the SQLite-era `TaskDB`.
Record wrappers let callers read and change one row. On top of the store
sit four more parts:

- the manager that remembers the domain, project, phase and task last used;
- the software-development overlay (visions, subsystems, deliverables, epics,
  stories and their tasks, with guardrails);
- taxonomy definitions and levels;
- two small wrappers: change tracking and serialisation filtering.

The tables are Dafny maps from row id to row. Ids are positive integers,
as SQLite assigns them, so an id is never 0 and Python's truth test on an
optional id only asks whether it is present. Phase positions are exact
`real`s. Each SQL query is a scan method, proved against the relation that
says which rows qualify. Operations that change the store are methods of
classes that hold the tables (`ModelDB`, `TaskDB`, `SWModelDB`, `DPMManager`,
`TrackingWrapper`, the taxon records). The if/elif precedence chains and the
tree search are functions.

Modules, one per file:

| file | module | models |
|---|---|---|
| common.dfy | Common | Option, Result, row ids, ASCII lower-casing, record equality, `select().first()` |
| schema.dfy | Schema | rows, record values and their setters |
| phase_order.dfy | PhaseOrder | the order derived from positions and the placement rule |
| model_db.dfy | ModelStore | `ModelDB`: CRUD, phase save, move, reference rewrites, project delete cascade |
| records.dfy | Records | `PhaseRecord.delete_from_db`, `ProjectRecord.new_phase` / `add_phase` |
| task_records.dfy | TaskRecords | `TaskRecord` save, moves, blocker loop check, blocker walks |
| task_db.dfy | TaskStore | `TaskDB` phase save, blocker queries, task delete; `ProjectRecord` constructor check |
| tracking.dfy | Tracking | `TrackingWrapper`, `FilterWrapper` |
| domains.dfy | Domains | `DomainCatalog.from_json_config`, `DPMManager` |
| sw_overlay.dfy | SwOverlay | `SWModelDB` factories, detection, overlay deletes |
| taxons.dfy | Taxons | `TaxonDefRecord`, `TaxonLevelRecord` |

## Model

| member | source | states |
|---|---|---|
| Common.Lower | src/dpm/store/wrappers.py:34-37 | the lookup key has the name's length and lower-cases it character by character |
| Common.LowerIdempotent | src/dpm/store/wrappers.py:456 | a stored `name_lower` is its own lookup key |
| Common.SameRecordNeedsId | src/dpm/store/wrappers.py:72-76 | records are equal iff both carry the same id; a record without an id equals nothing; the relation is symmetric |
| Common.FirstWhere | src/dpm/store/wrappers.py:456 | `select().where(p).first()` returns a row satisfying `p`, or None exactly when no row does |
| Schema.ProjectRecord.WithName | src/dpm/store/wrappers.py:34-37 | the name setter keeps `name_lower == name.lower()` and changes nothing else |
| Schema.ProjectRecord.WithParent | src/dpm/store/wrappers.py:65-67 | the parent setter takes the parent record's id and changes nothing else |
| Schema.PhaseRecord.WithName | src/dpm/store/wrappers.py:172-175 | the name setter keeps the lookup key in step with the name |
| Schema.PhaseRecord.WithFollows | src/dpm/store/wrappers.py:211-213 | the follows setter only records the id to link after |
| Schema.TaskRecord.WithName | src/dpm/store/wrappers.py:284-287 | the name setter keeps the lookup key in step with the name |
| Schema.TaskRecord.WithProject | src/dpm/store/wrappers.py:331-336 | moving a task to a different project clears its phase; the same project keeps it |
| Schema.TaskRecord.WithPhase | src/dpm/store/wrappers.py:344-346 | the phase setter sets only the phase id |
| Schema.WithProjectKeepsAgreement | src/dpm/store/wrappers.py:331-336 | the project setter never leaves a task in a phase of another project |
| PhaseOrder.FindLast | src/dpm/store/wrappers.py:797-799 | the last phase of a project by position, or None exactly when the project has no phase |
| PhaseOrder.FindFirstAbove | src/dpm/store/wrappers.py:815-821 | the phase with the least position above `pos`, the saved phase excluded, or None when there is none |
| PhaseOrder.FindLastBelow | src/dpm/store/wrappers.py:871-878 | the derived `follows`: the phase with the greatest position below, or None when there is none |
| PhaseOrder.Place | src/dpm/store/wrappers.py:796-826 | refuses a self-follow, a missing follows or one in another project; otherwise appends at last+1 (1.0 when empty) or inserts at `F + 0.75·gap`, or at `F + 1` without a successor |
| PhaseOrder.AppendedGoesLast | src/dpm/store/wrappers.py:796-805 | an appended phase lies strictly after every other phase of its project, and its reported `follows` is its derived predecessor |
| PhaseOrder.InsertedGoesBetween | src/dpm/store/wrappers.py:815-826 | a phase inserted after F lies strictly between F and F's old follower; F becomes its predecessor and it becomes the old follower's predecessor |
| PhaseOrder.PlacementKeepsPositionsDistinct | src/dpm/store/wrappers.py:796-826 | the placement rule never gives two phases of one project the same position |
| PhaseOrder.FollowsIsUnique | src/dpm/store/wrappers.py:871-878 | with distinct positions each phase has at most one derived predecessor |
| PhaseOrder.InsertByPosition | src/dpm/store/wrappers.py:883 | inserting into a position-sorted list keeps it sorted and adds exactly that phase |
| PhaseOrder.PhasesInOrder | src/dpm/store/wrappers.py:880-884 | the phases of a project, each exactly once, sorted by position |
| PhaseOrder.OrderedListIsChain | src/dpm/store/wrappers.py:880-889 | in the sorted list each phase's derived `follows` is the one before it, and the first follows nothing |
| ModelStore.ProjectUpsert | src/dpm/store/wrappers.py:728-732 | writing a project whose name no other row uses keeps names unique |
| ModelStore.PhaseUpsert | src/dpm/store/wrappers.py:783-785 | writing a phase whose name no other row uses keeps names unique |
| ModelStore.TaskUpsert | src/dpm/store/wrappers.py:531-535 | writing a task whose name no other row uses keeps names unique |
| ModelStore.RetargetProject | src/dpm/store/wrappers.py:592-597 | the tasks of project `from` now belong to `to`; every other task and every other field is unchanged |
| ModelStore.ClearPhase | src/dpm/store/wrappers.py:603-608 | the tasks of phase `from` leave it and keep their project; the others are unchanged |
| ModelStore.RetargetPhase | src/dpm/store/wrappers.py:610-618 | the tasks of phase `from` move into phase `to` and its project; the others are unchanged |
| ModelStore.FollowPhase | src/dpm/store/wrappers.py:947-951 | the tasks of a moved phase take its new project and keep their phase |
| ModelStore.EdgesWithout | src/dpm/store/wrappers.py:579-583 | the surviving edges are exactly those that mention the task at neither end |
| ModelStore.TaskBlockers | src/dpm/store/wrappers.py:644-656 | the existing tasks an edge says block the task, Done ones dropped with `only_not_done`, each once |
| ModelStore.TasksBlocked | src/dpm/store/wrappers.py:658-666 | the existing tasks that require the task, each once |
| ModelStore.ProjectsByParent | src/dpm/store/wrappers.py:713-719 | the projects whose parent is the given id, or the root projects for None, each once |
| ModelStore.PhaseById | src/dpm/store/wrappers.py:855-861 | the phase with its derived `follows`, or None exactly when the id has no row |
| ModelStore.PhaseThatFollows | src/dpm/store/wrappers.py:891-905 | the next phase of the same project, whose derived `follows` is the given phase when positions are distinct |
| ModelStore.PhasesOfProject | src/dpm/store/wrappers.py:880-889 | the records of a project's phases in position order, each following the one before it |
| ModelStore.RecordsFollowList | src/dpm/store/wrappers.py:885-889 | records built entry by entry from the sorted list keep its order and coverage |
| ModelStore.CheckOwner | src/dpm/store/wrappers.py:783-794 | `_save_phase`'s name and project checks, failing exactly as `OwnerFailure` says, and the owning project |
| ModelStore.PlanPhase | src/dpm/store/wrappers.py:780-853 | `_save_phase` fails exactly with the first failing check, in the source's order; otherwise the row is placed by the position rule |
| ModelStore.PlanMove | src/dpm/store/wrappers.py:927-941 | a moved phase goes strictly after every phase of the destination and follows its last one unless that is itself; a missing phase is an error |
| ModelStore.PlanAddTask | src/dpm/store/wrappers.py:454-476 | `add_task` refuses a taken name, then a status outside ToDo/Doing/Done; a task with only a phase takes that phase's project |
| ModelStore.PlanTaskSave | src/dpm/store/wrappers.py:524-571 | `save_task_record` refuses a missing id, a taken name, a missing phase and a phase of another project, in that order |
| ModelStore.PlanAddProject | src/dpm/store/wrappers.py:669-692 | `add_project` refuses a taken name, then a missing parent; an explicit parent id wins over the parent record |
| ModelStore.PlanProjectSave | src/dpm/store/wrappers.py:721-756 | `save_project_record` refuses a missing id, then a taken name; the parent is written unchecked |
| ModelStore.UpdateWhere | src/dpm/store/wrappers.py:592-597 | the rewrite loop changes exactly the selected tasks, each to its update |
| ModelStore.DropEdgesOf | src/dpm/store/wrappers.py:579-583 | the delete loop leaves exactly `EdgesWithout` |
| ModelStore.HandedTasks | src/dpm/store/wrappers.py:133-135 | after the hand-over the tasks of each moved phase belong to the heir and nothing else changed |
| ModelStore.HandOverMovesOwners | src/dpm/store/wrappers.py:129-135 | the hand-over changes only owners and positions |
| ModelStore.StaysGone | src/dpm/store/wrappers.py:758-762 | a child project deleted earlier in the cascade stays deleted |
| ModelStore.ModelDB.constructor | src/dpm/store/wrappers.py:423-441 | a new store is empty |
| ModelStore.ModelDB.AddTask | src/dpm/store/wrappers.py:454-476 | the checks and row of `PlanAddTask`, inserted at the next id; nothing else changes |
| ModelStore.ModelDB.SaveTaskRecord | src/dpm/store/wrappers.py:524-571 | the checks and row of `PlanTaskSave`, at the record's id or the next one |
| ModelStore.ModelDB.DeleteTaskRecord | src/dpm/store/wrappers.py:573-584 | an existing task goes with every edge mentioning it; a missing one changes nothing |
| ModelStore.ModelDB.ReplaceTaskProjectRefs | src/dpm/store/wrappers.py:586-597 | a missing target project fails before any write; otherwise exactly `RetargetProject` |
| ModelStore.ModelDB.ReplaceTaskPhaseRefs | src/dpm/store/wrappers.py:599-619 | the same phase on both sides changes nothing; None clears the phase; a missing target fails; otherwise `RetargetPhase` |
| ModelStore.ModelDB.AddTaskBlocker | src/dpm/store/wrappers.py:622-633 | an edge already present is returned, not duplicated; otherwise a new edge is stored |
| ModelStore.ModelDB.DeleteTaskBlocker | src/dpm/store/wrappers.py:635-642 | the edge for the pair is gone; an absent edge changes nothing |
| ModelStore.ModelDB.AddProject | src/dpm/store/wrappers.py:669-692 | the checks and row of `PlanAddProject`, inserted at the next id |
| ModelStore.ModelDB.SaveProjectRecord | src/dpm/store/wrappers.py:721-756 | the checks and row of `PlanProjectSave` |
| ModelStore.ModelDB.SavePhase | src/dpm/store/wrappers.py:780-853 | the checks of `PlanPhase`, then that an updated phase exists; the row is placed by the rule |
| ModelStore.ModelDB.SavePhaseRecord | src/dpm/store/wrappers.py:907-918 | saves the record through `_save_phase` with its cached `follows` and returns it as saved |
| ModelStore.ModelDB.DeletePhaseRow | src/dpm/store/wrappers.py:920-925 | the row is gone if it was there; nothing else changes |
| ModelStore.ModelDB.MovePhaseAndTasks | src/dpm/store/wrappers.py:927-955 | the phase goes after the destination's last phase and every task of the phase follows it; a missing phase writes nothing |
| ModelStore.ModelDB.ResolveHeir | src/dpm/store/wrappers.py:120-128 | the heir is the parent, or else the "Orphans" project; a parent id with no row fails before any write |
| ModelStore.ModelDB.OrphansProject | src/dpm/store/wrappers.py:123-128 | the project named "Orphans" (any case), created without a parent when absent |
| ModelStore.ModelDB.HandOverContents | src/dpm/store/wrappers.py:132-136 | with no phases the project's tasks go to the heir; otherwise each phase, in order, moves to the end of the heir with its tasks |
| ModelStore.ModelDB.PassOnContents | src/dpm/store/wrappers.py:117-136 | the heir is the parent, else the existing or a new "Orphans" project; on success the project's phases, in position order, move to the end of the heir's phases with their tasks, or with no phases its tasks move to the heir; a parent id with no row fails with nothing written |
| ModelStore.ModelDB.DeleteProject | src/dpm/store/wrappers.py:117-138 | a record without an id changes nothing; a missing parent fails with nothing written; on success the row is gone and the record comes back with its id cleared; a project with no child projects and a valid parent is always deleted, its phases (or tasks) having gone to the heir; with a valid parent and no chain of descendants deeper than `fuel` (`Shallow`) the delete succeeds; on success every descendant of the project is gone too (`SubtreeGone`); whatever the outcome, only the project and its descendants can have lost their rows (`RemovedFrom`) |
| ModelStore.ModelDB.DeleteProjectRecord | src/dpm/store/wrappers.py:758-768 | with no child projects only the row goes; with children and no fuel left it fails with `RecursionLimit` and nothing written; with no chain of descendants deeper than `fuel` it succeeds; on success every child, every deeper descendant and the row are gone; only the project and its descendants ever lose rows |
| ModelStore.ModelDB.DeleteListed | src/dpm/store/wrappers.py:758-768 | the same outcome as `DeleteProjectRecord` once the listed children are known to be all the project's children and fuel is left |
| ModelStore.ModelDB.DropProject | src/dpm/store/wrappers.py:764-768 | the row is gone if it was there |
| ModelStore.ModelDB.DeleteChildren | src/dpm/store/wrappers.py:760-762 | every listed child is gone afterwards; with no chain below the parent deeper than `fuel + 1` every child delete succeeds; on success every descendant of the parent is gone; any row that went was a descendant of the parent |
| ModelStore.ModelDB.DeleteChildStep | src/dpm/store/wrappers.py:761-762 | deleting child `i` removes exactly that child and its descendants on top of those of the children before it, and succeeds when no chain below the parent is too deep |
| ModelStore.SiblingDeleted | src/dpm/store/wrappers.py:760-762 | after the first `i + 1` children are deleted, a project survives exactly when it is none of them and under none of them |
| ModelStore.RecordCascade | src/dpm/store/wrappers.py:764-768 | dropping the row after its children removes only the project and its descendants, and leaves the whole subtree gone |
| Records.ResaveFailure | src/dpm/store/wrappers.py:253-256 | re-saving a phase read from the store fails only on its project or its `follows` |
| Records.RelinkKeepsPlace | src/dpm/store/wrappers.py:257-260 | re-inserting the follower after the deleted phase's true predecessor puts it back between the same neighbours |
| Records.DeletePhase | src/dpm/store/wrappers.py:247-261 | the tasks leave the phase keeping their project, the row goes, the follower is parked and re-inserted, and the record loses its id; a record without an id changes nothing |
| Records.FirstDeletionReorders | src/dpm/store/wrappers.py:252-260 | deleting the first of three phases, as written, puts the third before the second |
| Records.RemovalMendsChain | src/dpm/store/wrappers.py:871-878 | removing a phase makes its follower follow its predecessor, or come first |
| Records.DeletePhaseKeepingOrder | src/dpm/store/wrappers.py:247-261 | deleting a phase keeps every other position, so the order of the rest is unchanged |
| Records.FollowsListed | src/dpm/store/wrappers.py:89-90 | `follows in project.get_phases()` is true iff the record has an id and that phase is in the project |
| Records.PlacedPhaseOrder | src/dpm/store/wrappers.py:796-826 | a saved phase lands last, or right after the phase it follows |
| Records.NewPhase | src/dpm/store/wrappers.py:87-96 | a `follows` outside the project is refused; otherwise the phase is created last or right after it |
| Records.AddPhaseToProject | src/dpm/store/wrappers.py:98-112 | the same check; the phase moves into the project and is saved after `follows` |
| TaskRecords.SaveTask | src/dpm/store/wrappers.py:389-394 | a task with a phase but no project takes the phase's project; then `save_task_record` |
| TaskRecords.AddToProject | src/dpm/store/wrappers.py:401-403 | the task is saved with the new project id and its phase kept: it fails, writing nothing, exactly when the phase lookup or `save_task_record` refuses, and otherwise exactly its own row is written |
| TaskRecords.FoundProject | src/dpm/store/wrappers.py:694-699 | the id of the project found, or None exactly when there is none |
| TaskRecords.AddToPhase | src/dpm/store/wrappers.py:405-415 | a task kept in its project must already be in the phase's project; otherwise it takes the phase's project, which must exist; then it joins the phase and is saved, failing exactly when the save refuses and otherwise writing exactly its own row |
| TaskRecords.DeleteTask | src/dpm/store/wrappers.py:396-399 | a saved task is deleted with its edges and the record loses its id |
| TaskRecords.ReachesThrough | src/dpm/store/wrappers.py:368-377 | walks over blocker edges compose |
| TaskRecords.ClosedHoldsReached | src/dpm/store/wrappers.py:368-377 | a list closed under one step holds everything reachable |
| TaskRecords.GetBlockers | src/dpm/store/wrappers.py:368-377 | without descend, the direct blockers; with it, exactly the tasks reachable downwards, each once, and it succeeds exactly when no walk downwards is as long as the recursion bound |
| TaskRecords.BlocksTasks | src/dpm/store/wrappers.py:379-387 | without ascend, the direct dependants; with it, entries that are exactly the tasks reachable upwards; nothing blocked gives the empty list, and when every walk upwards is shorter than `d` steps a bound of `n + n^2 + ... + n^(d-1)` entries (n tasks) suffices |
| TaskRecords.AddBlocker | src/dpm/store/wrappers.py:357-363 | refuses a self-edge and a task the other already requires, not Done; otherwise stores the edge |
| TaskRecords.LoopCheckIsOneEdgeDeep | src/dpm/store/wrappers.py:357-363 | the check lets a three-task cycle through |
| TaskStore.RecordParent | src/dpm/store/task_db.py:195-200 | a parent record that disagrees with a given parent id is refused; otherwise the record's id, or the given id |
| TaskStore.GetTaskBlockers | src/dpm/store/task_db.py:737-750 | what `ModelDB` reports plus None per edge to a missing task; with `only_not_done`, such an edge raises |
| TaskStore.GetTasksBlocked | src/dpm/store/task_db.py:752-760 | what `ModelDB` reports plus None per edge from a missing task |
| TaskStore.ResavedLastReportsDiffer | src/dpm/store/task_db.py:998-1008 | re-saving the last phase, the two stores report different `follows` |
| TaskStore.TaskDB.constructor | src/dpm/store/task_db.py:379-396 | a new store is empty |
| TaskStore.TaskDB.SavePhase | src/dpm/store/task_db.py:909-996 | the checks of `_save_phase` in the same order and the same placement; the re-read `follows` is the rule's predecessor when positions are distinct |
| TaskStore.TaskDB.AddTaskBlocker | src/dpm/store/task_db.py:716-728 | an existing pair returns its edge id; a missing task id fails |
| TaskStore.TaskDB.DeleteTaskBlocker | src/dpm/store/task_db.py:730-735 | every edge for the pair is gone |
| TaskStore.TaskDB.DeleteTaskRecord | src/dpm/store/task_db.py:762-769 | the task row and every edge naming it go, whether or not the row existed |
| Tracking.SnapshotNotTracked | src/dpm/store/task_db.py:58-59 | a snapshot attribute is never itself reported |
| Tracking.SnapshotKeyInjective | src/dpm/store/task_db.py:36 | distinct attributes have distinct snapshots |
| Tracking.Diff | src/dpm/store/task_db.py:56-64 | exactly the tracked attributes that differ from their snapshot, with old and new values; a missing snapshot raises |
| Tracking.SetIsDetected | src/dpm/store/task_db.py:43-64 | a write is reported iff the value differs from the snapshot, and no other report changes |
| Tracking.Wrapped.Set | src/dpm/store/task_db.py:43-47 | a write sets the value; a new attribute goes last in the order |
| Tracking.Wrapped.Snapshot | src/dpm/store/task_db.py:35-36 | every attribute but the wrapper link gets an `_orig_` copy |
| Tracking.TrackingWrapper.constructor | src/dpm/store/task_db.py:33-36 | after construction nothing reads as changed |
| Tracking.TrackingWrapper.GetAttr | src/dpm/store/task_db.py:38-41 | reads are forwarded to the wrapped record |
| Tracking.TrackingWrapper.SetAttr | src/dpm/store/task_db.py:43-47 | writes are forwarded to the wrapped record |
| Tracking.TrackingWrapper.GetChanges | src/dpm/store/task_db.py:56-64 | the `Diff` of the wrapped record |
| Tracking.TrackingWrapper.IsChanged | src/dpm/store/task_db.py:49-54 | true iff some tracked attribute differs from its snapshot |
| Tracking.TrackingWrapper.Revert | src/dpm/store/task_db.py:66-74 | changed attributes get their snapshot back, unchanged ones are untouched, and nothing reads as changed |
| Tracking.Items | src/dpm/store/task_db.py:17-28 | the generator's output is `Serialised` of the keys |
| Tracking.SerialisedIsFiltered | src/dpm/store/task_db.py:17-28 | nothing yielded is the filter key, a filtered key or a store reference, and date-times come out as ISO text |
| Tracking.SerialisedIsComplete | src/dpm/store/task_db.py:17-28 | every other key is yielded |
| Tracking.SerialisedFails | src/dpm/store/task_db.py:22-23 | `items()` fails iff a filter entry that is neither a list nor text is tested |
| Tracking.FilterWrapper.FilterKey | src/dpm/store/task_db.py:11-15 | creates the filter list if absent and appends the key |
| Tracking.FilterWrapper.GetItems | src/dpm/store/task_db.py:17-28 | `items()` on this dictionary |
| Domains.ResolvePath | src/dpm/store/domains.py:37-43 | `/` is absolute, `./` joins the configuration's directory, anything else is refused; a resolved path gives back its text |
| Domains.DomainEntry | src/dpm/store/domains.py:35-54 | an entry is accepted exactly when it has `path` and `description`, a resolvable existing path and, if given, a known mode; the mode is the one `domain_mode` names, DEFAULT when absent, and an unknown mode fails as such |
| Domains.ModeOf | src/dpm/store/domains.py:10-12 | a mode is read back from exactly its lower-cased member name; anything else fails |
| Domains.FromJsonConfig | src/dpm/store/domains.py:28-57 | fails without a `databases` object or on the first bad entry; otherwise one domain per entry, in order |
| Domains.CollectDomains | src/dpm/store/domains.py:34-56 | succeeds exactly when every entry is accepted, and then maps each name to its entry's domain |
| Domains.ProjectById | src/dpm/store/wrappers.py:694-699 | the project's record, or None exactly when the id has no row |
| Domains.TaskById | src/dpm/store/wrappers.py:485-490 | the task's record, or None exactly when the id has no row |
| Domains.Kept | src/dpm/store/domains.py:88-100 | an id comes back on reload iff its row still exists |
| Domains.Restart | src/dpm/store/domains.py:61-111 | saving and then starting a new manager over the same catalog gives back the domain and every live id, and None for stale ones; with no domain remembered nothing comes back |
| Domains.DPMManager.constructor | src/dpm/store/domains.py:61-67 | a new manager remembers nothing |
| Domains.DPMManager.SaveState | src/dpm/store/domains.py:102-111 | the state file holds the current ids |
| Domains.DPMManager.LoadState | src/dpm/store/domains.py:74-100 | no file changes nothing; an unknown domain is ignored; stale ids load as None |
| Domains.DPMManager.GetDefaultDomain | src/dpm/store/domains.py:116-119 | the remembered domain, or the catalog's first, which is then remembered |
| Domains.DPMManager.SetLastDomain | src/dpm/store/domains.py:128-132 | an unknown domain changes nothing; a known one is remembered and saved |
| Domains.DPMManager.SetLastProject | src/dpm/store/domains.py:137-146 | an unknown domain changes nothing; a missing project fails after the domain switched, unsaved |
| Domains.DPMManager.SetLastPhase | src/dpm/store/domains.py:151-161 | as for a project; the phase's project is remembered too |
| Domains.DPMManager.SetLastTask | src/dpm/store/domains.py:166-178 | as for a project; the task's project, and its phase when it has one, are remembered |
| Domains.OpenManager | src/dpm/store/domains.py:61-68 | a refused configuration or a non-JSON state file fails; otherwise the catalog with the state loaded |
| SwOverlay.FirstGiven | src/dpm/store/sw_wrappers.py:442-449 | the first present entry: None iff all are absent, else the leftmost present one |
| SwOverlay.SubsystemParent | src/dpm/store/sw_wrappers.py:407-410 | the vision's project, or none |
| SwOverlay.DeliverableParent | src/dpm/store/sw_wrappers.py:422-427 | the subsystem's project over the vision's |
| SwOverlay.EpicParent | src/dpm/store/sw_wrappers.py:442-449 | deliverable, else subsystem, else vision, else none |
| SwOverlay.StoryProject | src/dpm/store/sw_wrappers.py:466-476 | epic, else deliverable, else subsystem, else vision |
| SwOverlay.TaskAnchor | src/dpm/store/sw_wrappers.py:522-536 | a story gives its project and phase; otherwise the nearest project and no phase |
| SwOverlay.EpicGuardrail | src/dpm/store/sw_wrappers.py:450 | the given guardrail, else PRODUCTION |
| SwOverlay.StoryGuardrail | src/dpm/store/sw_wrappers.py:479-484 | explicit, else the epic's, else PRODUCTION |
| SwOverlay.TaskGuardrail | src/dpm/store/sw_wrappers.py:539-546 | explicit, else the story's, else the epic's, else PRODUCTION |
| SwOverlay.GuardrailFlowsDown | src/dpm/store/sw_wrappers.py:479-546 | an epic's guardrail reaches a story under it and a task under that story |
| SwOverlay.SwTypeOf | src/dpm/store/sw_wrappers.py:327-337 | the first kind in detection order whose table refers to the project; None iff no table does |
| SwOverlay.HasRowFor | src/dpm/store/sw_wrappers.py:148-151 | true iff some row refers to the target |
| SwOverlay.DeleteFirstFor | src/dpm/store/sw_wrappers.py:148-152 | under the unique column, removes every row for the target; with none it changes nothing |
| SwOverlay.SwTaskStatusIsNotValid | src/dpm/store/sw_wrappers.py:559-565 | the status the overlay writes is not one `add_task` accepts |
| SwOverlay.SWModelDB.constructor | src/dpm/store/sw_wrappers.py:141-144 | the overlay tables start empty |
| SwOverlay.SWModelDB.DeleteOverlayForProject | src/dpm/store/sw_wrappers.py:146-152 | no table refers to the project afterwards, other rows stay, and a second call changes nothing |
| SwOverlay.SWModelDB.DeleteOverlayForPhase | src/dpm/store/sw_wrappers.py:154-159 | the phase's story row is gone; other rows stay |
| SwOverlay.SWModelDB.DeleteOverlayForTask | src/dpm/store/sw_wrappers.py:161-166 | the task's overlay row is gone; other rows stay |
| SwOverlay.SWModelDB.GetSwType | src/dpm/store/sw_wrappers.py:327-337 | exactly `SwTypeOf` |
| SwOverlay.SWModelDB.GetSwPhaseType | src/dpm/store/sw_wrappers.py:339-343 | a story iff a story row refers to the phase |
| SwOverlay.SWModelDB.GetSwTaskType | src/dpm/store/sw_wrappers.py:345-349 | an overlay task iff a row refers to the task |
| SwOverlay.SWModelDB.WrapProject | src/dpm/store/sw_wrappers.py:353-368 | the overlay of the detected kind, or the record unchanged when there is none |
| SwOverlay.SWModelDB.AddProjBase | src/dpm/store/sw_wrappers.py:372-390 | fails iff the name is taken or the parent is missing; otherwise inserts the project |
| SwOverlay.SWModelDB.AddVision | src/dpm/store/sw_wrappers.py:394-402 | fails exactly when `BaseFailure` names an error, with that error and nothing written; otherwise a project without a parent at the next project id plus its Vision row at the Vision table's next id, which was free |
| SwOverlay.SWModelDB.AddSubsystem | src/dpm/store/sw_wrappers.py:404-416 | the same under `SubsystemParent`: the exact `BaseFailure` error, or the project plus its row at the Subsystem table's next free id |
| SwOverlay.SWModelDB.AddDeliverable | src/dpm/store/sw_wrappers.py:418-433 | the same under `DeliverableParent`: the exact `BaseFailure` error, or the project plus its row at the Deliverable table's next free id |
| SwOverlay.SWModelDB.AddEpic | src/dpm/store/sw_wrappers.py:435-456 | the same under `EpicParent`: the exact `BaseFailure` error, or the project plus its row with `EpicGuardrail` at the Epic table's next free id |
| SwOverlay.SWModelDB.AppendOverlay | src/dpm/store/sw_wrappers.py:397-401 | the overlay row goes into its kind's table at that table's next id, which was free; the other tables and the store invariant are kept |
| SwOverlay.SWModelDB.AppendStory | src/dpm/store/sw_wrappers.py:502-506 | the story row goes in at the next story id, which was free; the other tables are kept |
| SwOverlay.SWModelDB.AppendSwTask | src/dpm/store/sw_wrappers.py:569-573 | the overlay task row goes in at the next id, which was free; the other tables are kept |
| SwOverlay.SWModelDB.AddStory | src/dpm/store/sw_wrappers.py:458-508 | fails as `StoryFailure` says; otherwise a phase at the default position plus its row with `StoryGuardrail` |
| SwOverlay.SWModelDB.AddTask | src/dpm/store/sw_wrappers.py:510-574 | fails as `TaskFailure` says; otherwise a "Todo" task at `TaskAnchor` plus its row with `TaskGuardrail` |
| Taxons.ParseBase | src/dpm/store/taxons.py:11-15 | a parsed member's text is the input |
| Taxons.BaseRoundTrip | src/dpm/store/taxons.py:71-77 | a stored `covers_dpm` reads back as the same member |
| Taxons.FindAmong | src/dpm/store/taxons.py:116-122 | a found entry has the searched name |
| Taxons.FindBelowIsFirstInPreOrder | src/dpm/store/taxons.py:113-122 | within the depth bound, the search returns the first pre-order descendant with the name, NotFound when none has |
| Taxons.TaxonDefRecord.SetName | src/dpm/store/taxons.py:66-69 | the name setter keeps `name_lower == name.lower()` |
| Taxons.TaxonDefRecord.SetCoversDpm | src/dpm/store/taxons.py:75-77 | the getter then returns the member set |
| Taxons.TaxonDefRecord.GetChildByName | src/dpm/store/taxons.py:113-122 | the first pre-order descendant whose name matches ignoring case |
| Taxons.TaxonDefRecord.DeleteFromDb | src/dpm/store/taxons.py:136-139 | a record with an id hands it to the delete and loses it; one without changes nothing |
| Taxons.Ancestor | src/dpm/store/taxons.py:196-200 | the level `k` parent links up, or None where the chain ends |
| Taxons.TaxonLevelRecord.SetName | src/dpm/store/taxons.py:175-177 | the name setter keeps the lookup key in step with the name |
| Taxons.TaxonLevelRecord.DomainLevel | src/dpm/store/taxons.py:241-250 | itself when a domain level, else the nearest domain ancestor, None when the chain ends first; the answer is the walk `DomainOf` |
| Taxons.TaxonLevelRecord.AddProjectLevel | src/dpm/store/taxons.py:252-259 | asks the store for a project level under exactly the domain level `domain_level` finds, with no parent level when called on the domain level, and fails exactly when that search fails, with its error |
| Taxons.TaxonLevelRecord.AddChild | src/dpm/store/taxons.py:273-281 | dispatches on `covers_dpm` to a project, phase or task level; anything else raises |
| Taxons.TaxonLevelRecord.DeleteFromDb | src/dpm/store/taxons.py:298-301 | as for definitions |

## Left out

- Sessions, engines, cursors, transactions and table creation: the tables are in-memory maps.
- `save_time` and every `datetime.now()`: timestamps are not modelled.
- Float precision of `position`: positions are exact reals, so running out of room between two phases is not modelled.
- Records are values passed in and returned. Two Python wrappers sharing one row object, and the rebinding of `_phase` / `_task` after a save, are not modelled.
- `ModelStore.ModelDB.DeleteProject`, `ModelStore.ModelDB.DeleteProjectRecord`, `ModelStore.ModelDB.DeleteChildren`: `fuel` bounds the cascade through child projects and stands for Python's recursion limit. On a cycle of parent links the source ends in a recursion error, modelled as `RecursionLimit`. Success is promised when no chain of descendants is deeper than the fuel, which is sufficient; the exact set of trees on which a given fuel runs out is not characterised.
- `TaskRecords.GetBlockers`: `fuel` bounds the recursion. On a cycle of blockers `get_blockers(descend=True)` ends in a recursion error; here it fails exactly when some walk downwards is `fuel` steps long.
- `TaskRecords.BlocksTasks`: `fuel` bounds the entries the walk may expand. On a cycle of blockers `blocks_tasks(ascend=True)` never ends; here it stops with `StepLimit`. Success is promised under a sufficient bound on the number of walks upwards, not for the exact number of them.
- `Taxons.TaxonDefRecord.GetChildByName`: `fuel` bounds the recursion depth and stands for Python's recursion limit (`TooDeep`).
- `Taxons.TaxonLevelRecord.DomainLevel`: `limit` bounds the walk. On a cycle of parent levels the source loops forever; here it reports `StepLimit`.
- `make_backup` in both stores: it creates a file and copies every row into a second store. The copy loop is not modelled.
- The plain getters, the `get_*_by_name` and listing queries not used by the operations above, `get_tasks_by_status`, and `to_json_dict` / `__repr__`: they only read a row or build text.
- `ModelDB.open` / `close`, `TaskDB.open` / `init_db`, and `DPMManager.shutdown`: resource handling.
- JSON parsing and file existence: the configuration and the state file are given as parsed values, and which database files exist is given as a map from resolved path to store.
- Path normalisation: a resolved path keeps its text; joining to the configuration's directory is not normalised.
- `Common.Lower`: lower-cases ASCII letters only, not Unicode.
- The store's taxon operations are not part of this model: `get_taxon_defs_by_parent_id` is given as the `Children` map, level rows as the `levels` map, and `add_taxon_level_for_*` as the `LevelRequest` value an `add_child` produces.
- `build_software_taxonomy` and `build_software_suite_taxonomy`: fixed data built through the store.
- The `SWModelDB` lookups `get_*_by_id` and the listings of stories and overlay tasks: they read one row or list a table. The overlay records keep the ids they were made from and do not re-read their rows.
- `SwOverlay.SWModelDB.constructor`: a new overlay starts with empty tables. The overlay of a store that already has overlay rows is not modelled.
- `EpicRecord.save`, `StoryRecord.save` and `SWTaskRecord.save`: they write the guardrail back through the store and are not modelled.
- `TrackingWrapper.__setattr__` on `_wrapped`, which rebinds the wrapped object, is not modelled.

Behaviour modelled as written, which a reader might not expect:

- `TaskRecords.AddBlocker`: the loop check looks one edge deep, so longer cycles are accepted (`TaskRecords.LoopCheckIsOneEdgeDeep`).
- `ModelStore.ModelDB.HandOverContents`: when a deleted project has phases, tasks that sit directly in the project keep its id after the project is gone.
- `ModelStore.ModelDB.DeleteProjectRecord`: each child hands its phases to the dying parent before the parent row goes, so those phases end up naming a deleted project.
- `SwOverlay.SWModelDB.AddStory`: the story's phase gets the default position 1.0, not a place from the position rule.
- `SwOverlay.SWModelDB.AddTask`: the stored status is "Todo", which `add_task` itself would refuse (`SwOverlay.SwTaskStatusIsNotValid`).
- `TaskStore.TaskDB.SavePhase`: the record comes back re-read, so its `follows` is derived from positions; re-saving the last phase reports a different `follows` from `ModelDB` (`TaskStore.ResavedLastReportsDiffer`).
- `TaskStore.GetTaskBlockers`: an edge to a missing task yields None, or raises with `only_not_done`, where `ModelDB` skips it.
- `TaskStore.TaskDB.DeleteTaskRecord`: the edges of the id are dropped even when no task row has it.

## Findings

| source | as written | input that shows it | evidently intended | confidence | as-written member | corrected member |
|---|---|---|---|---|---|---|
| src/dpm/store/wrappers.py:247-261 | the follower of the deleted phase is saved without `follows`, which appends it at the end, and then saved again after the deleted phase's cached `follows`; for the first phase that is None, so the follower stays at the end | phases a (1.0), b (2.0), c (3.0) of one project; delete a; b is parked at 4.0, then re-saved at 5.0, and the order becomes c, b | the remaining phases keep their order, b before c | not executed | Records.FirstDeletionReorders | Records.DeletePhaseKeepingOrder |
