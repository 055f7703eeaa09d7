/** The project administration screen (components/ProjectManager.tsx): adding a project with its
  * defaults, editing one (which triggers the rename cascade), the active and trash lists, and
  * the days a trashed project has left. */
module ProjectManager {
  import opened Types
  import opened Seqs
  import opened Text
  import opened Storage

  // ---------------------------------------------------------------------------------------
  // Adding a project
  // ---------------------------------------------------------------------------------------

  /** The unit a new project goes to: the chosen unit, else the first unit, else none (`""`). */
  function TargetUnit(chosenUnit: string, units: seq<Unit>): (u: string)
    ensures chosenUnit != "" ==> u == chosenUnit
    ensures chosenUnit == "" && units != [] ==> u == units[0].id
    ensures chosenUnit == "" && units == [] ==> u == ""
  {
    if chosenUnit != "" then chosenUnit else if |units| > 0 then units[0].id else ""
  }

  /** An empty text field for an optional id stands for no value. */
  function OptionalId(s: string): (o: Option<string>)
    ensures o.None? <==> s == ""
    ensures o.Some? ==> o.value == s
  {
    if s == "" then None else Some(s)
  }

  datatype AddOutcome = BlankName | NoUnit | Added(project: Project)

  /** The outcome of the add form: a blank name and a missing unit are refused, in that order;
    * otherwise the new project, with the trimmed year or the default year, the name as typed,
    * no group for an empty choice, and not in the trash. */
  function AddDecision(name: string, chosenUnit: string, year: string, group: string,
                       units: seq<Unit>, newId: string): (o: AddOutcome)
    ensures o == BlankName <==> Trim(name) == ""
    ensures o == NoUnit <==> Trim(name) != "" && TargetUnit(chosenUnit, units) == ""
    ensures o.Added? ==>
              o.project.id == newId && o.project.name == name
              && o.project.unitId == TargetUnit(chosenUnit, units) && o.project.unitId != ""
              && o.project.fiscalYear != "" && YearOf(o.project) == o.project.fiscalYear
              && (Trim(year) != "" ==> o.project.fiscalYear == Trim(year))
              && (Trim(year) == "" ==> o.project.fiscalYear == DEFAULT_YEAR)
              && GroupOf(o.project) == OptionalId(group)
              && !IsTrashed(o.project) && o.project.deletedAt.None?
  {
    if Trim(name) == "" then BlankName
    else
      var targetUnit := TargetUnit(chosenUnit, units);
      if targetUnit == "" then NoUnit
      else
        var yearToSave := if Trim(year) != "" then Trim(year) else DEFAULT_YEAR;
        Added(Project(newId, targetUnit, name, yearToSave, OptionalId(group), None))
  }

  /** After an add, a year filter other than `'all'` moves to the saved year. */
  function NextFilterYear(filterYear: string, savedYear: string): (f: string)
    ensures filterYear == ALL ==> f == ALL
    ensures filterYear != ALL ==> f == savedYear
  {
    if filterYear != ALL && filterYear != savedYear then savedYear else filterYear
  }

  // ---------------------------------------------------------------------------------------
  // Editing a project
  // ---------------------------------------------------------------------------------------

  /** The group field of the edit form for a project (empty for no group). */
  function GroupField(p: Project): (s: string)
    ensures OptionalId(s) == GroupOf(p)
  {
    if p.groupId.Some? then p.groupId.value else ""
  }

  /** The project with the edit form's fields put in; id and trash state are kept. */
  function Merged(p: Project, name: string, year: string, unitId: string, group: string): (m: Project)
    ensures m.id == p.id && m.deletedAt == p.deletedAt
    ensures m.name == name && m.fiscalYear == year && m.unitId == unitId
    ensures GroupOf(m) == OptionalId(group)
  {
    p.(name := name, fiscalYear := year, unitId := unitId, groupId := OptionalId(group))
  }

  /** Opening the edit form and saving it untouched keeps what the project means (its name,
    * unit, year, group and trash state) and triggers no rename cascade. */
  lemma EditUntouchedKeepsProject(p: Project)
    ensures var m := Merged(p, p.name, YearOf(p), p.unitId, GroupField(p));
            m.id == p.id && m.name == p.name && m.unitId == p.unitId && YearOf(m) == YearOf(p)
            && GroupOf(m) == GroupOf(p) && m.deletedAt == p.deletedAt
            && !NeedsSync(m, Some(p))
  {
  }

  // ---------------------------------------------------------------------------------------
  // The lists and the trash countdown
  // ---------------------------------------------------------------------------------------

  /** Projects not in the trash whose year matches the filter (any year for `'all'`). */
  function ActiveProjects(ps: seq<Project>, filterYear: string): (r: seq<Project>)
    ensures forall p :: p in r <==> p in ps && !IsTrashed(p) && (filterYear == ALL || YearOf(p) == filterYear)
  {
    Filter(ps, (p: Project) => !IsTrashed(p) && (filterYear == ALL || YearOf(p) == filterYear))
  }

  /** Projects in the trash. */
  function DeletedProjects(ps: seq<Project>): (r: seq<Project>)
    ensures forall p :: p in r <==> p in ps && IsTrashed(p)
  {
    Filter(ps, (p: Project) => IsTrashed(p))
  }

  /** With the year filter at `'all'`, every project is listed exactly once: among the active
    * ones or in the trash. */
  lemma ActiveDeletedPartition(ps: seq<Project>)
    ensures forall p :: multiset(ActiveProjects(ps, ALL))[p] + multiset(DeletedProjects(ps))[p] == multiset(ps)[p]
    ensures |ActiveProjects(ps, ALL)| + |DeletedProjects(ps)| == |ps|
  {
    forall p ensures multiset(ActiveProjects(ps, ALL))[p] + multiset(DeletedProjects(ps))[p] == multiset(ps)[p] {
      FilterCount(ps, (q: Project) => !IsTrashed(q) && (ALL == ALL || YearOf(q) == ALL), p);
      FilterCount(ps, (q: Project) => IsTrashed(q), p);
    }
    assert multiset(ActiveProjects(ps, ALL)) + multiset(DeletedProjects(ps)) == multiset(ps);
    assert |multiset(ActiveProjects(ps, ALL)) + multiset(DeletedProjects(ps))| == |multiset(ps)|;
  }

  /** `Math.ceil(a / b)` for a positive divisor. */
  function CeilDiv(a: int, b: int): (q: int)
    requires b > 0
    ensures (q - 1) * b < a <= q * b
  {
    var k := (-a) / b;
    assert -a == b * k + (-a) % b;
    -k
  }

  /** The whole days left before a trashed project is swept, never negative; 0 for a project
    * that is not in the trash. */
  function DaysRemaining(deletedAt: Option<int>, now: int): (days: int)
    ensures days >= 0
    ensures deletedAt.None? || deletedAt.value == 0 ==> days == 0
    ensures deletedAt.Some? && deletedAt.value != 0 && days > 0 ==>
              (days - 1) * DAY_MS < deletedAt.value + TRASH_RETENTION_MS - now <= days * DAY_MS
    ensures deletedAt.Some? && deletedAt.value != 0 && days == 0 ==> deletedAt.value + TRASH_RETENTION_MS - now <= 0
  {
    if deletedAt.None? || deletedAt.value == 0 then 0
    else
      var days := CeilDiv(deletedAt.value + TRASH_RETENTION_MS - now, DAY_MS);
      if days > 0 then days else 0
  }

  /** Arithmetic proof helper: `x * b < y * b` for a positive `b` means `x < y`. */
  lemma MulCancel(x: int, y: int, b: int)
    requires b > 0 && x * b < y * b
    ensures x < y
  {
  }

  /** A project trashed at or before `now` has between 0 and 30 days left; it shows 0 exactly
    * when its 30 days are over, and every project the sweep would delete shows 0. */
  lemma DaysRemainingSpec(p: Project, now: int)
    requires IsTrashed(p)
    ensures p.deletedAt.value <= now ==> DaysRemaining(p.deletedAt, now) <= 30
    ensures DaysRemaining(p.deletedAt, now) == 0 <==> p.deletedAt.value + TRASH_RETENTION_MS <= now
    ensures Expired(p, now) ==> DaysRemaining(p.deletedAt, now) == 0
  {
    var diff := p.deletedAt.value + TRASH_RETENTION_MS - now;
    var q := CeilDiv(diff, DAY_MS);
    assert (q - 1) * DAY_MS < diff <= q * DAY_MS;
    if p.deletedAt.value <= now {
      assert (q - 1) * DAY_MS < 30 * DAY_MS;
      MulCancel(q - 1, 30, DAY_MS);
    }
    if diff <= 0 {
      assert (q - 1) * DAY_MS < 0 * DAY_MS;
      MulCancel(q - 1, 0, DAY_MS);
    }
  }

  // ---------------------------------------------------------------------------------------
  // The screen's state
  // ---------------------------------------------------------------------------------------

  class ProjectManager {
    var newProjectName: string
    var newProjectUnit: string
    var newProjectYear: string
    var newProjectGroup: string
    var filterYear: string
    /** The id of the project being edited, if any, and the edit form's fields. */
    var editing: Option<string>
    var editName: string
    var editYear: string
    var editGroupId: string
    var editUnitId: string
    /** The add-group field, and the id and name field of the group being renamed, if any. */
    var newGroupName: string
    var editingGroup: Option<string>
    var editGroupName: string

    constructor ()
      ensures newProjectName == "" && newProjectUnit == "" && newProjectYear == DEFAULT_YEAR
      ensures newProjectGroup == "" && filterYear == ALL && editing.None?
      ensures editName == "" && editYear == "" && editGroupId == "" && editUnitId == ""
      ensures newGroupName == "" && editingGroup.None? && editGroupName == ""
    {
      newProjectName, newProjectUnit, newProjectYear, newProjectGroup := "", "", DEFAULT_YEAR, "";
      filterYear := ALL;
      editing := None;
      editName, editYear, editGroupId, editUnitId := "", "", "", "";
      newGroupName, editingGroup, editGroupName := "", None, "";
    }

    /** Preselect the first unit while none is chosen. */
    method SyncNewProjectUnit(units: seq<Unit>)
      modifies this
      ensures newProjectUnit == TargetUnit(old(newProjectUnit), units)
      ensures newProjectName == old(newProjectName) && newProjectYear == old(newProjectYear)
      ensures newProjectGroup == old(newProjectGroup) && filterYear == old(filterYear)
      ensures editing == old(editing) && editName == old(editName) && editYear == old(editYear)
      ensures editGroupId == old(editGroupId) && editUnitId == old(editUnitId)
      ensures unchanged(this`newGroupName, this`editingGroup, this`editGroupName)
    {
      if newProjectUnit == "" && |units| > 0 {
        newProjectUnit := units[0].id;
      }
    }

    /** Submit the add form: when accepted, save the new project (no rename cascade), clear the
      * name and move a specific year filter to the saved year; when refused, change nothing. */
    method AddProject(store: Store, units: seq<Unit>, newId: string) returns (outcome: AddOutcome)
      modifies this, store
      ensures outcome == AddDecision(old(newProjectName), old(newProjectUnit), old(newProjectYear),
                                     old(newProjectGroup), units, newId)
      ensures !outcome.Added? ==> unchanged(this) && unchanged(store)
      ensures outcome.Added? ==>
                store.projects == Upsert(old(store.projects), outcome.project, ProjectId)
                && store.reports == old(store.reports) && store.units == old(store.units)
                && store.groups == old(store.groups)
                && newProjectName == ""
                && filterYear == NextFilterYear(old(filterYear), outcome.project.fiscalYear)
      ensures unchanged(this`newProjectUnit, this`newProjectYear, this`newProjectGroup, this`editing)
      ensures unchanged(this`editName, this`editYear, this`editGroupId, this`editUnitId)
      ensures unchanged(this`newGroupName, this`editingGroup, this`editGroupName)
    {
      outcome := AddDecision(newProjectName, newProjectUnit, newProjectYear, newProjectGroup, units, newId);
      if outcome.Added? {
        var project := outcome.project;
        store.SaveProject(project, None);
        assert !NeedsSync(project, None);
        newProjectName := "";
        if filterYear != ALL && filterYear != project.fiscalYear {
          filterYear := project.fiscalYear;
        }
      }
    }

    /** Open the edit form on a project: its name, year (default `"2569"`), group and unit. */
    method EditProjectStart(project: Project)
      modifies this
      ensures editing == Some(project.id) && editName == project.name && editYear == YearOf(project)
      ensures editGroupId == GroupField(project) && editUnitId == project.unitId
      ensures newProjectName == old(newProjectName) && newProjectUnit == old(newProjectUnit)
      ensures newProjectYear == old(newProjectYear) && newProjectGroup == old(newProjectGroup)
      ensures filterYear == old(filterYear)
      ensures unchanged(this`newGroupName, this`editingGroup, this`editGroupName)
    {
      editing := Some(project.id);
      editName := project.name;
      editYear := YearOf(project);
      editGroupId := GroupField(project);
      editUnitId := project.unitId;
    }

    /** Save the edit form: a blank name saves nothing; otherwise the merged project is saved
      * with the previous version, so a changed name or unit reaches the project's reports,
      * and the form closes. */
    method EditProjectSave(store: Store, project: Project) returns (saved: Option<Project>)
      modifies this, store
      ensures Trim(old(editName)) == "" ==> saved.None? && unchanged(this) && unchanged(store)
      ensures Trim(old(editName)) != "" ==>
                saved == Some(Merged(project, old(editName), old(editYear), old(editUnitId), old(editGroupId)))
                && store.projects == Upsert(old(store.projects), saved.value, ProjectId)
                && store.reports == (if NeedsSync(saved.value, Some(project))
                                     then SyncReports(old(store.reports), saved.value)
                                     else old(store.reports))
                && store.units == old(store.units) && store.groups == old(store.groups)
                && editing.None?
      ensures editName == old(editName) && editYear == old(editYear)
      ensures editGroupId == old(editGroupId) && editUnitId == old(editUnitId)
      ensures newProjectName == old(newProjectName) && newProjectUnit == old(newProjectUnit)
      ensures newProjectYear == old(newProjectYear) && newProjectGroup == old(newProjectGroup)
      ensures filterYear == old(filterYear)
      ensures unchanged(this`newGroupName, this`editingGroup, this`editGroupName)
    {
      if Trim(editName) == "" {
        return None;
      }
      var merged := Merged(project, editName, editYear, editUnitId, editGroupId);
      store.SaveProject(merged, Some(project));
      editing := None;
      saved := Some(merged);
    }

    /** Submit the add-group form: a blank name adds nothing; otherwise a group with the fresh
      * id and the name as typed is saved and the field is cleared. */
    method AddGroup(store: Store, newId: string) returns (added: Option<ProjectGroup>)
      modifies this, store
      ensures Trim(old(newGroupName)) == "" ==> added.None? && unchanged(this) && unchanged(store)
      ensures Trim(old(newGroupName)) != "" ==>
                added == Some(ProjectGroup(newId, old(newGroupName)))
                && store.groups == Upsert(old(store.groups), added.value, GroupId)
                && unchanged(store`units, store`projects, store`reports)
                && newGroupName == ""
      ensures unchanged(this`editingGroup, this`editGroupName, this`newProjectName, this`filterYear, this`editing)
      ensures unchanged(this`newProjectUnit, this`newProjectYear, this`newProjectGroup)
      ensures unchanged(this`editName, this`editYear, this`editGroupId, this`editUnitId)
    {
      if Trim(newGroupName) == "" {
        return None;
      }
      var group := ProjectGroup(newId, newGroupName);
      store.SaveProjectGroup(group);
      newGroupName := "";
      added := Some(group);
    }

    /** Open the rename field on a group, filled with its name. */
    method EditGroupStart(group: ProjectGroup)
      modifies this
      ensures editingGroup == Some(group.id) && editGroupName == group.name
      ensures unchanged(this`newGroupName, this`newProjectName, this`filterYear, this`editing)
      ensures unchanged(this`newProjectUnit, this`newProjectYear, this`newProjectGroup)
      ensures unchanged(this`editName, this`editYear, this`editGroupId, this`editUnitId)
    {
      editingGroup := Some(group.id);
      editGroupName := group.name;
    }

    /** Save the rename field: a blank name saves nothing; otherwise the group with the new name
      * (same id) is saved and the field closes. */
    method EditGroupSave(store: Store, group: ProjectGroup) returns (saved: Option<ProjectGroup>)
      modifies this, store
      ensures Trim(old(editGroupName)) == "" ==> saved.None? && unchanged(this) && unchanged(store)
      ensures Trim(old(editGroupName)) != "" ==>
                saved == Some(group.(name := old(editGroupName)))
                && store.groups == Upsert(old(store.groups), saved.value, GroupId)
                && unchanged(store`units, store`projects, store`reports)
                && editingGroup.None?
      ensures unchanged(this`newGroupName, this`editGroupName, this`newProjectName, this`filterYear, this`editing)
      ensures unchanged(this`newProjectUnit, this`newProjectYear, this`newProjectGroup)
      ensures unchanged(this`editName, this`editYear, this`editGroupId, this`editUnitId)
    {
      if Trim(editGroupName) == "" {
        return None;
      }
      var renamed := group.(name := editGroupName);
      store.SaveProjectGroup(renamed);
      editingGroup := None;
      saved := Some(renamed);
    }

    /** Delete a group once the user confirmed it: its projects are ungrouped; without the
      * confirmation nothing changes. */
    method DeleteGroup(store: Store, id: string, confirmed: bool)
      modifies store
      ensures !confirmed ==> unchanged(store)
      ensures confirmed ==> store.groups == RemoveGroup(old(store.groups), id)
                            && store.projects == Ungroup(old(store.projects), id)
                            && unchanged(store`units, store`reports)
    {
      if confirmed {
        store.DeleteProjectGroup(id);
      }
    }

    /** Delete a project for good once the user confirmed it, together with its reports;
      * without the confirmation nothing changes. */
    method PermanentDeleteProject(store: Store, id: string, confirmed: bool)
      modifies store
      ensures !confirmed ==> unchanged(store)
      ensures confirmed ==> store.projects == RemoveProject(old(store.projects), id)
                            && store.reports == RemoveReportsOfProject(old(store.reports), id)
                            && unchanged(store`units, store`groups)
    {
      if confirmed {
        store.DeleteProject(id);
      }
    }
  }

  /** An accepted project is listed among the active projects right after the add, whatever
    * the year filter was. */
  lemma AddedProjectIsListed(ps: seq<Project>, name: string, chosenUnit: string, year: string,
                             group: string, units: seq<Unit>, newId: string, filterYear: string)
    requires AddDecision(name, chosenUnit, year, group, units, newId).Added?
    ensures var p := AddDecision(name, chosenUnit, year, group, units, newId).project;
            p in ActiveProjects(Upsert(ps, p, ProjectId), NextFilterYear(filterYear, p.fiscalYear))
  {
  }
}
