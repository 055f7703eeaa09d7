/** The collection store (services/storageService.ts): four collections held in memory, upserts
  * by `id`, deletes with their cascades, the trash, the available-years list and the import of
  * an already parsed backup. The clock is the parameter `now`. */
module Storage {
  import opened Types
  import opened Seqs

  // ---------------------------------------------------------------------------------------
  // Upsert by id
  // ---------------------------------------------------------------------------------------

  function UnitId(u: Unit): string { u.id }
  function GroupId(g: ProjectGroup): string { g.id }
  function ProjectId(p: Project): string { p.id }
  function ReportId(r: Report): string { r.id }

  /** `s.findIndex(x => key(x) === id)`: the first index whose key is `id`, or -1. */
  function IndexOf<T>(s: seq<T>, key: T -> string, id: string): (i: int)
    ensures -1 <= i < |s|
    ensures 0 <= i ==> key(s[i]) == id && forall j :: 0 <= j < i ==> key(s[j]) != id
    ensures i == -1 ==> forall j :: 0 <= j < |s| ==> key(s[j]) != id
    decreases |s|
  {
    if s == [] then -1
    else if key(s[0]) == id then 0
    else
      var k := IndexOf(s[1..], key, id);
      if k == -1 then -1 else k + 1
  }

  /** Replace the first element with the key of `x` by `x`, or append `x` when there is none. */
  function Upsert<T>(s: seq<T>, x: T, key: T -> string): (r: seq<T>)
    ensures |s| <= |r| <= |s| + 1
    ensures x in r
    ensures forall y :: y in r ==> y in s || y == x
  {
    var i := IndexOf(s, key, key(x));
    if 0 <= i then assert s[i := x][i] == x; s[i := x] else s + [x]
  }

  /** No two elements share a key. */
  ghost predicate UniqueKeys<T>(s: seq<T>, key: T -> string)
  {
    forall i, j :: 0 <= i < j < |s| ==> key(s[i]) != key(s[j])
  }

  /** Upsert either overwrites, in place, the first element with the same key and keeps every
    * other element, or appends. */
  lemma UpsertSpec<T>(s: seq<T>, x: T, key: T -> string)
    ensures (exists j :: 0 <= j < |s| && key(s[j]) == key(x)) ==>
              |Upsert(s, x, key)| == |s|
              && exists i :: 0 <= i < |s| && key(s[i]) == key(x) && Upsert(s, x, key)[i] == x
                             && (forall j :: 0 <= j < i ==> key(s[j]) != key(x))
                             && (forall j :: 0 <= j < |s| && j != i ==> Upsert(s, x, key)[j] == s[j])
    ensures (forall j :: 0 <= j < |s| ==> key(s[j]) != key(x)) ==> Upsert(s, x, key) == s + [x]
  {
    var i := IndexOf(s, key, key(x));
    if 0 <= i {
      assert Upsert(s, x, key)[i] == x;
    }
  }

  /** Upsert keeps the keys of a collection unique. */
  lemma UpsertKeepsKeysUnique<T>(s: seq<T>, x: T, key: T -> string)
    requires UniqueKeys(s, key)
    ensures UniqueKeys(Upsert(s, x, key), key)
  {
    var r := Upsert(s, x, key);
    var k := IndexOf(s, key, key(x));
    forall i, j | 0 <= i < j < |r| ensures key(r[i]) != key(r[j]) {
      if k < 0 && j == |s| {
        assert r[j] == x && r[i] == s[i];
      } else if i == k {
        assert r[i] == x && r[j] == s[j];
      } else if j == k {
        assert r[j] == x && r[i] == s[i];
      } else {
        assert r[i] == s[i] && r[j] == s[j];
      }
    }
  }

  /** Saving the same record twice is saving it once. */
  lemma UpsertIdempotent<T>(s: seq<T>, x: T, key: T -> string)
    ensures Upsert(Upsert(s, x, key), x, key) == Upsert(s, x, key)
  {
    var r := Upsert(s, x, key);
    var k := IndexOf(s, key, key(x));
    var k' := IndexOf(r, key, key(x));
    if 0 <= k {
      assert r[k] == x;
      assert forall j :: 0 <= j < k ==> r[j] == s[j];
      assert k' == k;
      assert r[k := x] == r;
    } else {
      assert r[|s|] == x;
      assert forall j :: 0 <= j < |s| ==> r[j] == s[j];
      assert k' == |s|;
      assert r[|s| := x] == r;
    }
  }

  // ---------------------------------------------------------------------------------------
  // Projects: rename cascade, soft delete, restore, hard delete
  // ---------------------------------------------------------------------------------------

  /** The report with the project's current name and unit copied in, if it belongs to the project. */
  function SyncReport(r: Report, p: Project): Report
  {
    if r.projectId == p.id then r.(projectName := p.name, unitId := p.unitId) else r
  }

  /** The rename cascade over all reports. */
  function SyncReports(rs: seq<Report>, p: Project): (out: seq<Report>)
    ensures |out| == |rs|
    ensures forall i :: 0 <= i < |rs| && rs[i].projectId == p.id ==>
              out[i].projectName == p.name && out[i].unitId == p.unitId
              && out[i].(projectName := rs[i].projectName, unitId := rs[i].unitId) == rs[i]
    ensures forall i :: 0 <= i < |rs| && rs[i].projectId != p.id ==> out[i] == rs[i]
  {
    seq(|rs|, i requires 0 <= i < |rs| => SyncReport(rs[i], p))
  }

  /** The cascade runs only when the previous version is given and the name or the unit changed. */
  predicate NeedsSync(project: Project, oldProject: Option<Project>)
  {
    oldProject.Some? && (oldProject.value.name != project.name || oldProject.value.unitId != project.unitId)
  }

  /** `deletedAt` of the first project with that id set to `v` (`None` deletes the field);
    * the list is unchanged when no project has that id. */
  function SetDeletedAt(ps: seq<Project>, id: string, v: Option<int>): (r: seq<Project>)
    ensures |r| == |ps|
  {
    var i := IndexOf(ps, ProjectId, id);
    if 0 <= i then ps[i := ps[i].(deletedAt := v)] else ps
  }

  /** Soft delete and restore touch the first project with the id, only its `deletedAt`,
    * and nothing when the id is unknown. */
  lemma SetDeletedAtSpec(ps: seq<Project>, id: string, v: Option<int>)
    ensures (forall p :: p in ps ==> p.id != id) ==> SetDeletedAt(ps, id, v) == ps
    ensures (exists p :: p in ps && p.id == id) ==>
              exists i :: 0 <= i < |ps| && ps[i].id == id
                          && (forall j :: 0 <= j < i ==> ps[j].id != id)
                          && SetDeletedAt(ps, id, v)[i] == ps[i].(deletedAt := v)
                          && forall j :: 0 <= j < |ps| && j != i ==> SetDeletedAt(ps, id, v)[j] == ps[j]
  {
    var i := IndexOf(ps, ProjectId, id);
    if (forall p :: p in ps ==> p.id != id) {
      assert i == -1;
    }
    if (exists p :: p in ps && p.id == id) {
      var p :| p in ps && p.id == id;
      var k :| 0 <= k < |ps| && ps[k] == p;
      assert ProjectId(ps[k]) == id;
      assert 0 <= i;
    }
  }

  /** Restoring a soft-deleted project gives back the list as it would be had the project
    * only lost its `deletedAt`; for a project that was active, the original list. */
  lemma RestoreAfterSoftDelete(ps: seq<Project>, id: string, now: int)
    ensures SetDeletedAt(SetDeletedAt(ps, id, Some(now)), id, None) == SetDeletedAt(ps, id, None)
    ensures (forall p :: p in ps && p.id == id ==> p.deletedAt.None?) ==>
              SetDeletedAt(SetDeletedAt(ps, id, Some(now)), id, None) == ps
  {
    var k := IndexOf(ps, ProjectId, id);
    var soft := SetDeletedAt(ps, id, Some(now));
    if 0 <= k {
      assert soft[k].id == id;
      assert forall j :: 0 <= j < k ==> soft[j] == ps[j];
      assert IndexOf(soft, ProjectId, id) == k;
      assert soft[k := soft[k].(deletedAt := None)] == ps[k := ps[k].(deletedAt := None)];
      if (forall p :: p in ps && p.id == id ==> p.deletedAt.None?) {
        assert ps[k] in ps;
        assert ps[k].(deletedAt := None) == ps[k];
      }
    } else {
      assert IndexOf(soft, ProjectId, id) == -1;
    }
  }

  function RemoveProject(ps: seq<Project>, id: string): seq<Project>
  {
    Filter(ps, (p: Project) => p.id != id)
  }

  function RemoveReportsOfProject(rs: seq<Report>, id: string): seq<Report>
  {
    Filter(rs, (r: Report) => r.projectId != id)
  }

  /** Deleting a project leaves no project with its id and no report pointing at it, and keeps
    * every other project and report, each as often as before (and in order, being a filter). */
  lemma DeleteProjectSpec(ps: seq<Project>, rs: seq<Report>, id: string)
    ensures forall p :: multiset(RemoveProject(ps, id))[p] == if p.id == id then 0 else multiset(ps)[p]
    ensures forall r :: multiset(RemoveReportsOfProject(rs, id))[r] == if r.projectId == id then 0 else multiset(rs)[r]
    ensures IsSubsequence(RemoveProject(ps, id), ps) && IsSubsequence(RemoveReportsOfProject(rs, id), rs)
  {
    FilterIsSubsequence(ps, (p: Project) => p.id != id);
    FilterIsSubsequence(rs, (r: Report) => r.projectId != id);
    forall p ensures multiset(RemoveProject(ps, id))[p] == if p.id == id then 0 else multiset(ps)[p] {
      FilterCount(ps, (p: Project) => p.id != id, p);
    }
    forall r ensures multiset(RemoveReportsOfProject(rs, id))[r] == if r.projectId == id then 0 else multiset(rs)[r] {
      FilterCount(rs, (r: Report) => r.projectId != id, r);
    }
  }

  // ---------------------------------------------------------------------------------------
  // The trash sweep
  // ---------------------------------------------------------------------------------------

  /** In the trash for longer than the retention window: `p.deletedAt && p.deletedAt < cutoff`. */
  predicate Expired(p: Project, now: int): (b: bool)
    ensures p.deletedAt.None? || p.deletedAt.value == 0 ==> !b
    ensures IsTrashed(p) ==> (b <==> now - p.deletedAt.value > TRASH_RETENTION_MS)
  {
    IsTrashed(p) && p.deletedAt.value < now - TRASH_RETENTION_MS
  }

  function ExpiredProjects(ps: seq<Project>, now: int): seq<Project>
  {
    Filter(ps, (p: Project) => Expired(p, now))
  }

  function KeptProjects(ps: seq<Project>, now: int): seq<Project>
  {
    Filter(ps, (p: Project) => !Expired(p, now))
  }

  function ReportsNotIn(rs: seq<Report>, ids: set<string>): seq<Report>
  {
    Filter(rs, (r: Report) => r.projectId !in ids)
  }

  /** The sweep on the two collections it touches: nothing happens unless some project expired. */
  function Sweep(ps: seq<Project>, rs: seq<Report>, now: int): (r: (seq<Project>, seq<Report>))
    ensures forall p :: p in r.0 <==> p in ps && !Expired(p, now)
    ensures forall x :: x in r.1 <==> x in rs && forall p :: p in ps && Expired(p, now) ==> p.id != x.projectId
  {
    var toDelete := ExpiredProjects(ps, now);
    if |toDelete| > 0 then
      (KeptProjects(ps, now), ReportsNotIn(rs, set p | p in toDelete :: p.id))
    else
      (ps, rs)
  }

  /** The sweep removes exactly the expired projects and every report pointing at one of them;
    * projects without `deletedAt`, with `deletedAt` 0, or still inside the window all stay. */
  lemma SweepSpec(ps: seq<Project>, rs: seq<Report>, now: int)
    ensures forall p :: multiset(Sweep(ps, rs, now).0)[p] == if Expired(p, now) then 0 else multiset(ps)[p]
    ensures forall r :: multiset(Sweep(ps, rs, now).1)[r] ==
              if exists p :: p in ps && Expired(p, now) && p.id == r.projectId then 0 else multiset(rs)[r]
    ensures forall p :: p in ps && (p.deletedAt == None || p.deletedAt == Some(0)) ==> p in Sweep(ps, rs, now).0
    ensures IsSubsequence(Sweep(ps, rs, now).0, ps) && IsSubsequence(Sweep(ps, rs, now).1, rs)
  {
    var toDelete := ExpiredProjects(ps, now);
    var ids := set p | p in toDelete :: p.id;
    if |toDelete| > 0 {
      FilterIsSubsequence(ps, (p: Project) => !Expired(p, now));
      FilterIsSubsequence(rs, (r: Report) => r.projectId !in ids);
      forall p ensures multiset(Sweep(ps, rs, now).0)[p] == if Expired(p, now) then 0 else multiset(ps)[p] {
        FilterCount(ps, (p: Project) => !Expired(p, now), p);
      }
      forall r ensures multiset(Sweep(ps, rs, now).1)[r] ==
          if exists p :: p in ps && Expired(p, now) && p.id == r.projectId then 0 else multiset(rs)[r] {
        FilterCount(rs, (r: Report) => r.projectId !in ids, r);
        if exists p :: p in ps && Expired(p, now) && p.id == r.projectId {
          var p :| p in ps && Expired(p, now) && p.id == r.projectId;
          assert p in toDelete;
        }
      }
    } else {
      assert toDelete == [];
      assert forall p :: p in ps ==> !Expired(p, now);
      SubsequenceRefl(ps);
      SubsequenceRefl(rs);
    }
  }

  /** A second sweep at the same instant finds nothing left to remove. */
  lemma SweepIdempotent(ps: seq<Project>, rs: seq<Report>, now: int)
    ensures Sweep(Sweep(ps, rs, now).0, Sweep(ps, rs, now).1, now) == Sweep(ps, rs, now)
  {
    var (ps', rs') := Sweep(ps, rs, now);
    if |ExpiredProjects(ps, now)| > 0 {
      assert forall p :: p in ps' ==> !Expired(p, now);
    } else {
      assert ps' == ps;
    }
    FilterNone(ps', (p: Project) => Expired(p, now));
  }

  // ---------------------------------------------------------------------------------------
  // Groups and units
  // ---------------------------------------------------------------------------------------

  function RemoveGroup(gs: seq<ProjectGroup>, id: string): seq<ProjectGroup>
  {
    Filter(gs, (g: ProjectGroup) => g.id != id)
  }

  /** Every project of the deleted group loses its `groupId`; no project is removed and no other
    * field or project changes. */
  function Ungroup(ps: seq<Project>, id: string): (r: seq<Project>)
    ensures |r| == |ps|
    ensures forall i :: 0 <= i < |r| ==> r[i].groupId != Some(id)
    ensures forall i :: 0 <= i < |r| && ps[i].groupId == Some(id) ==> r[i].groupId.None?
    ensures forall i :: 0 <= i < |r| ==> r[i].(groupId := ps[i].groupId) == ps[i]
    ensures forall i :: 0 <= i < |r| && ps[i].groupId != Some(id) ==> r[i] == ps[i]
  {
    seq(|ps|, i requires 0 <= i < |ps| =>
      if ps[i].groupId == Some(id) then ps[i].(groupId := None) else ps[i])
  }

  function RemoveUnit(us: seq<Unit>, id: string): seq<Unit>
  {
    Filter(us, (u: Unit) => u.id != id)
  }

  function RemoveProjectsOfUnit(ps: seq<Project>, id: string): seq<Project>
  {
    Filter(ps, (p: Project) => p.unitId != id)
  }

  function RemoveReportsOfUnit(rs: seq<Report>, id: string): seq<Report>
  {
    Filter(rs, (r: Report) => r.unitId != id)
  }

  /** Deleting a unit removes the unit, its projects and its reports (by the report's own
    * `unitId`), and nothing else. */
  lemma DeleteUnitSpec(us: seq<Unit>, ps: seq<Project>, rs: seq<Report>, id: string)
    ensures forall u :: multiset(RemoveUnit(us, id))[u] == if u.id == id then 0 else multiset(us)[u]
    ensures forall p :: multiset(RemoveProjectsOfUnit(ps, id))[p] == if p.unitId == id then 0 else multiset(ps)[p]
    ensures forall r :: multiset(RemoveReportsOfUnit(rs, id))[r] == if r.unitId == id then 0 else multiset(rs)[r]
    ensures IsSubsequence(RemoveUnit(us, id), us) && IsSubsequence(RemoveProjectsOfUnit(ps, id), ps)
            && IsSubsequence(RemoveReportsOfUnit(rs, id), rs)
  {
    FilterIsSubsequence(us, (u: Unit) => u.id != id);
    FilterIsSubsequence(ps, (p: Project) => p.unitId != id);
    FilterIsSubsequence(rs, (r: Report) => r.unitId != id);
    forall u ensures multiset(RemoveUnit(us, id))[u] == if u.id == id then 0 else multiset(us)[u] {
      FilterCount(us, (u: Unit) => u.id != id, u);
    }
    forall p ensures multiset(RemoveProjectsOfUnit(ps, id))[p] == if p.unitId == id then 0 else multiset(ps)[p] {
      FilterCount(ps, (p: Project) => p.unitId != id, p);
    }
    forall r ensures multiset(RemoveReportsOfUnit(rs, id))[r] == if r.unitId == id then 0 else multiset(rs)[r] {
      FilterCount(rs, (r: Report) => r.unitId != id, r);
    }
  }

  /** Units as subscribers receive them: a missing or empty password replaced by "123". Nothing
    * else changes, and the password a login would expect is the same before and after. */
  function DeliveredUnits(us: seq<Unit>): (r: seq<Unit>)
    ensures |r| == |us|
    ensures forall i :: 0 <= i < |r| ==> r[i].password != "" && r[i].(password := us[i].password) == us[i]
    ensures forall i :: 0 <= i < |r| ==> PasswordOf(r[i]) == PasswordOf(us[i])
  {
    seq(|us|, i requires 0 <= i < |us| => us[i].(password := PasswordOf(us[i])))
  }

  // ---------------------------------------------------------------------------------------
  // Backup
  // ---------------------------------------------------------------------------------------

  const BACKUP_VERSION: string := "2.0 (Local)"

  /** A parsed backup file; a collection that is absent from the file is `None`. */
  datatype Backup = Backup(
    reports: Option<seq<Report>>,
    projects: Option<seq<Project>>,
    units: Option<seq<Unit>>,
    groups: Option<seq<ProjectGroup>>,
    timestamp: int,
    version: string)

  /** The import shape check: reports, projects and units must be present (an empty list is). */
  predicate WellShaped(b: Backup)
  {
    b.reports.Some? && b.projects.Some? && b.units.Some?
  }

  // ---------------------------------------------------------------------------------------
  // The store
  // ---------------------------------------------------------------------------------------

  class Store {
    var units: seq<Unit>
    var projects: seq<Project>
    var groups: seq<ProjectGroup>
    var reports: seq<Report>

    constructor ()
      ensures units == [] && projects == [] && groups == [] && reports == []
    {
      units, projects, groups, reports := [], [], [], [];
    }

    method SaveReport(report: Report)
      modifies this
      ensures reports == Upsert(old(reports), report, ReportId)
      ensures units == old(units) && projects == old(projects) && groups == old(groups)
    {
      var index := IndexOf(reports, ReportId, report.id);
      if index >= 0 {
        reports := reports[index := report];
      } else {
        reports := reports + [report];
      }
    }

    method DeleteReport(id: string)
      modifies this
      ensures reports == Filter(old(reports), (r: Report) => r.id != id)
      ensures units == old(units) && projects == old(projects) && groups == old(groups)
    {
      reports := Filter(reports, (r: Report) => r.id != id);
    }

    /** Upsert the project; when `oldProject` is given and the name or the unit changed, copy the
      * new name and unit into every report of the project. */
    method SaveProject(project: Project, oldProject: Option<Project>)
      modifies this
      ensures projects == Upsert(old(projects), project, ProjectId)
      ensures reports == if NeedsSync(project, oldProject) then SyncReports(old(reports), project) else old(reports)
      ensures units == old(units) && groups == old(groups)
    {
      var index := IndexOf(projects, ProjectId, project.id);
      if index >= 0 {
        projects := projects[index := project];
      } else {
        projects := projects + [project];
      }
      if oldProject.Some? {
        var nameChanged := oldProject.value.name != project.name;
        var unitChanged := oldProject.value.unitId != project.unitId;
        if nameChanged || unitChanged {
          var i := 0;
          while i < |reports|
            invariant 0 <= i <= |reports| == |old(reports)|
            invariant forall k :: 0 <= k < i ==> reports[k] == SyncReport(old(reports)[k], project)
            invariant forall k :: i <= k < |reports| ==> reports[k] == old(reports)[k]
            invariant projects == Upsert(old(projects), project, ProjectId)
            invariant units == old(units) && groups == old(groups)
          {
            if reports[i].projectId == project.id {
              reports := reports[i := reports[i].(projectName := project.name, unitId := project.unitId)];
            }
            i := i + 1;
          }
          assert reports == SyncReports(old(reports), project);
        }
      }
    }

    method SoftDeleteProject(id: string, now: int)
      modifies this
      ensures projects == SetDeletedAt(old(projects), id, Some(now))
      ensures units == old(units) && groups == old(groups) && reports == old(reports)
    {
      var index := IndexOf(projects, ProjectId, id);
      if index >= 0 {
        projects := projects[index := projects[index].(deletedAt := Some(now))];
      }
    }

    method RestoreProject(id: string)
      modifies this
      ensures projects == SetDeletedAt(old(projects), id, None)
      ensures units == old(units) && groups == old(groups) && reports == old(reports)
    {
      var index := IndexOf(projects, ProjectId, id);
      if index >= 0 {
        projects := projects[index := projects[index].(deletedAt := None)];
      }
    }

    method DeleteProject(id: string)
      modifies this
      ensures projects == RemoveProject(old(projects), id)
      ensures reports == RemoveReportsOfProject(old(reports), id)
      ensures units == old(units) && groups == old(groups)
    {
      projects := RemoveProject(projects, id);
      var initialLen := |reports|;
      var kept := RemoveReportsOfProject(reports, id);
      if |kept| != initialLen {
        reports := kept;
      } else {
        FilterSameLength(reports, (r: Report) => r.projectId != id);
      }
    }

    /** Hard-delete every project that has been in the trash for more than 30 days at `now`,
      * with its reports. */
    method CleanupTrash(now: int)
      modifies this
      ensures (projects, reports) == Sweep(old(projects), old(reports), now)
      ensures units == old(units) && groups == old(groups)
    {
      var toDelete := ExpiredProjects(projects, now);
      if |toDelete| > 0 {
        projects := KeptProjects(projects, now);
        var toDeleteIds := set p | p in toDelete :: p.id;
        reports := ReportsNotIn(reports, toDeleteIds);
      }
    }

    method SaveProjectGroup(group: ProjectGroup)
      modifies this
      ensures groups == Upsert(old(groups), group, GroupId)
      ensures units == old(units) && projects == old(projects) && reports == old(reports)
    {
      var index := IndexOf(groups, GroupId, group.id);
      if index >= 0 {
        groups := groups[index := group];
      } else {
        groups := groups + [group];
      }
    }

    /** Remove the group and clear `groupId` on the projects that referred to it. */
    method DeleteProjectGroup(id: string)
      modifies this
      ensures groups == RemoveGroup(old(groups), id)
      ensures projects == Ungroup(old(projects), id)
      ensures units == old(units) && reports == old(reports)
    {
      groups := RemoveGroup(groups, id);
      var i := 0;
      while i < |projects|
        invariant 0 <= i <= |projects| == |old(projects)|
        invariant forall k :: 0 <= k < i ==> projects[k] == Ungroup(old(projects), id)[k]
        invariant forall k :: i <= k < |projects| ==> projects[k] == old(projects)[k]
        invariant groups == RemoveGroup(old(groups), id)
        invariant units == old(units) && reports == old(reports)
      {
        if projects[i].groupId == Some(id) {
          projects := projects[i := projects[i].(groupId := None)];
        }
        i := i + 1;
      }
    }

    method SaveUnit(unit: Unit)
      modifies this
      ensures units == Upsert(old(units), unit, UnitId)
      ensures projects == old(projects) && groups == old(groups) && reports == old(reports)
    {
      var index := IndexOf(units, UnitId, unit.id);
      if index >= 0 {
        units := units[index := unit];
      } else {
        units := units + [unit];
      }
    }

    /** Remove the unit, every project of the unit and every report of the unit. */
    method DeleteUnit(id: string)
      modifies this
      ensures units == RemoveUnit(old(units), id)
      ensures projects == RemoveProjectsOfUnit(old(projects), id)
      ensures reports == RemoveReportsOfUnit(old(reports), id)
      ensures groups == old(groups)
    {
      units := RemoveUnit(units, id);
      projects := RemoveProjectsOfUnit(projects, id);
      reports := RemoveReportsOfUnit(reports, id);
    }

    /** The full snapshot written to a backup file. */
    method ExportBackup(timestamp: int) returns (b: Backup)
      ensures b == Backup(Some(reports), Some(projects), Some(units), Some(groups), timestamp, BACKUP_VERSION)
    {
      b := Backup(Some(reports), Some(projects), Some(units), Some(groups), timestamp, BACKUP_VERSION);
    }

    /** Replace the collections by those of a parsed backup; a backup without reports, projects
      * or units is refused and changes nothing; groups are replaced only when present. */
    method ImportBackup(b: Backup) returns (ok: bool)
      modifies this
      ensures ok == WellShaped(b)
      ensures ok ==> reports == b.reports.value && projects == b.projects.value && units == b.units.value
      ensures ok ==> groups == if b.groups.Some? then b.groups.value else old(groups)
      ensures !ok ==> units == old(units) && projects == old(projects) && groups == old(groups) && reports == old(reports)
    {
      if b.reports.None? || b.projects.None? || b.units.None? {
        return false;
      }
      reports := b.reports.value;
      projects := b.projects.value;
      units := b.units.value;
      if b.groups.Some? {
        groups := b.groups.value;
      }
      return true;
    }
  }

  /** Exporting one store and importing the file into another makes the second a copy of the first. */
  method ExportImportRoundTrip(source: Store, target: Store, timestamp: int)
    requires source != target
    modifies target
    ensures target.units == source.units && target.projects == source.projects
    ensures target.groups == source.groups && target.reports == source.reports
  {
    var b := source.ExportBackup(timestamp);
    var ok := target.ImportBackup(b);
    assert ok;
  }
}
