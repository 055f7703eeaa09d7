/** The four stored entities, the logged-in user, the defaults every view applies, and the
  * lookups (`Array.prototype.find`) the views share. */
module Types {

  datatype Option<T> = None | Some(value: T)

  /** Fiscal year given to a project whose `fiscalYear` is missing or empty. */
  const DEFAULT_YEAR: string := "2569"
  /** Password of a unit whose `password` is missing or empty. */
  const DEFAULT_UNIT_PASSWORD: string := "123"
  /** The administrator password. */
  const ADMIN_PASSWORD: string := "admin"
  /** The value of a unit or project filter that means "no filter". */
  const ALL: string := "all"

  const DAY_MS: int := 24 * 60 * 60 * 1000
  /** How long a soft-deleted project stays in the trash. */
  const TRASH_RETENTION_MS: int := 30 * DAY_MS

  /** An organisational unit and its login credential; `password` "" stands for a missing one. */
  datatype Unit = Unit(id: string, name: string, shortName: string, username: string, password: string)

  datatype ProjectGroup = ProjectGroup(id: string, name: string)

  /** A tracked project. `fiscalYear` "" stands for a missing year; `groupId` and `deletedAt`
    * are the optional fields of the record (`deletedAt` set = in the trash). */
  datatype Project = Project(
    id: string,
    unitId: string,
    name: string,
    fiscalYear: string,
    groupId: Option<string>,
    deletedAt: Option<int>)

  /** One progress report; `projectName` and `unitId` are copies of the project's fields. */
  datatype Report = Report(
    id: string,
    unitId: string,
    projectId: string,
    projectName: string,
    reportDateStart: string,
    reportDateEnd: string,
    pastPerformance: string,
    nextPlan: string,
    progress: int,
    obstacles: string,
    remarks: string,
    fileLink: string,
    timestamp: int)

  datatype Role = AdminRole | UserRole

  datatype User = User(username: string, role: Role, unitId: Option<string>)

  /** `p.fiscalYear || "2569"`. */
  function YearOf(p: Project): string
  {
    if p.fiscalYear == "" then DEFAULT_YEAR else p.fiscalYear
  }

  /** `p.deletedAt` is truthy: present and not 0. */
  predicate IsTrashed(p: Project)
  {
    p.deletedAt.Some? && p.deletedAt.value != 0
  }

  /** The group a project is listed under: `p.groupId` when it is truthy. */
  function GroupOf(p: Project): Option<string>
  {
    if p.groupId.Some? && p.groupId.value != "" then p.groupId else None
  }

  /** `u.password || '123'`. */
  function PasswordOf(u: Unit): (pw: string)
    ensures pw != ""
    ensures u.password != "" ==> pw == u.password
    ensures u.password == "" ==> pw == DEFAULT_UNIT_PASSWORD
  {
    if u.password == "" then DEFAULT_UNIT_PASSWORD else u.password
  }

  /** An optional string that is truthy: present and not empty. */
  predicate Present(o: Option<string>)
  {
    o.Some? && o.value != ""
  }

  /** `units.find(u => u.id === id)`: the first unit with that id. */
  function FindUnit(units: seq<Unit>, id: string): (r: Option<Unit>)
    ensures r.None? <==> forall u :: u in units ==> u.id != id
    ensures r.Some? ==> r.value in units && r.value.id == id
    ensures r.Some? ==> exists i :: 0 <= i < |units| && units[i] == r.value && forall j :: 0 <= j < i ==> units[j].id != id
    decreases |units|
  {
    if units == [] then None
    else if units[0].id == id then Some(units[0])
    else FindUnit(units[1..], id)
  }

  /** `projects.find(p => p.id === id)`: the first project with that id. */
  function FindProject(projects: seq<Project>, id: string): (r: Option<Project>)
    ensures r.None? <==> forall p :: p in projects ==> p.id != id
    ensures r.Some? ==> r.value in projects && r.value.id == id
    ensures r.Some? ==> exists i :: 0 <= i < |projects| && projects[i] == r.value && forall j :: 0 <= j < i ==> projects[j].id != id
    decreases |projects|
  {
    if projects == [] then None
    else if projects[0].id == id then Some(projects[0])
    else FindProject(projects[1..], id)
  }
}
