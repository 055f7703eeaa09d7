/** The report entry form of a unit user (components/EntryForm.tsx): the unit's projects of the
  * selected year, the selected project and its fallback, the prefill from the latest report,
  * the submission and what it clears, the progress colour and the grouped picker. */
module EntryForm {
  import opened Types
  import opened Seqs
  import opened ViewModel
  import opened Storage

  /** The unit's projects whose year (default `"2569"`) is the selected year, in order. */
  function UnitProjects(projects: seq<Project>, unitId: string, year: string): (r: seq<Project>)
    ensures forall p :: p in r <==> p in projects && p.unitId == unitId && YearOf(p) == year
  {
    Filter(projects, (p: Project) => p.unitId == unitId && YearOf(p) == year)
  }

  /** The selection after the list of candidates changed: kept while it is still a candidate,
    * otherwise the first candidate, and nothing (`""`) when there are none. */
  function FallbackSelection(candidates: seq<Project>, current: string): (sel: string)
    ensures candidates == [] ==> sel == ""
    ensures (forall p :: p in candidates ==> p.id != "") ==> (sel == "" <==> candidates == [])
    ensures candidates != [] ==> FindProject(candidates, sel).Some?
    ensures FindProject(candidates, current).Some? ==> sel == current
    ensures candidates != [] && FindProject(candidates, current).None? ==> sel == candidates[0].id
  {
    if |candidates| > 0 then
      if FindProject(candidates, current).Some? then current else candidates[0].id
    else ""
  }

  /** How a progress value is coloured. */
  datatype Color = Red | Yellow | Green

  /** Below 30 red, below 70 yellow, otherwise green. */
  function ProgressColor(val: int): (c: Color)
    ensures c == Red <==> val < 30
    ensures c == Green <==> 70 <= val
  {
    if val < 30 then Red else if val < 70 then Yellow else Green
  }

  function ColorRank(c: Color): nat
  {
    match c
    case Red => 0
    case Yellow => 1
    case Green => 2
  }

  /** More progress never gives a worse colour. */
  lemma ProgressColorMonotone(a: int, b: int)
    requires a <= b
    ensures ColorRank(ProgressColor(a)) <= ColorRank(ProgressColor(b))
  {
  }

  /** The report a submission stores: the form's fields, the unit, the selected project and its
    * name (empty when it is not among the unit's projects), a fresh id and the current time. */
  function NewReport(unit: Unit, candidates: seq<Project>, selected: string, id: string, now: int,
                     reportDateStart: string, reportDateEnd: string, pastPerformance: string,
                     nextPlan: string, progress: int, obstacles: string, remarks: string,
                     fileLink: string): (r: Report)
    ensures r.unitId == unit.id && r.projectId == selected && r.id == id && r.timestamp == now
    ensures r.reportDateStart == reportDateStart && r.reportDateEnd == reportDateEnd
    ensures r.pastPerformance == pastPerformance && r.nextPlan == nextPlan && r.progress == progress
    ensures r.obstacles == obstacles && r.remarks == remarks && r.fileLink == fileLink
    ensures FindProject(candidates, selected).None? ==> r.projectName == ""
    ensures FindProject(candidates, selected).Some? ==> r.projectName == FindProject(candidates, selected).value.name
  {
    var project := FindProject(candidates, selected);
    Report(id, unit.id, selected, if project.Some? then project.value.name else "",
           reportDateStart, reportDateEnd, pastPerformance, nextPlan, progress,
           obstacles, remarks, fileLink, now)
  }

  /** A report saved with a timestamp later than every stored one is the latest report of its
    * project afterwards, so the next prefill reads back what was submitted. */
  lemma SubmittedIsLatest(rs: seq<Report>, rep: Report)
    requires forall x :: x in rs ==> x.timestamp < rep.timestamp
    ensures Latest(ReportsOf(Upsert(rs, rep, ReportId), rep.projectId)) == Some(rep)
  {
    var after := Upsert(rs, rep, ReportId);
    var mine := ReportsOf(after, rep.projectId);
    assert rep in mine;
    var l := Latest(mine).value;
    assert l in after && rep.timestamp <= l.timestamp;
  }

  class EntryForm {
    const unit: Unit
    var selectedYear: string
    var selectedProjectId: string
    var reportDateStart: string
    var reportDateEnd: string
    var pastPerformance: string
    var nextPlan: string
    var progress: int
    var obstacles: string
    var remarks: string
    var fileLink: string

    /** A fresh form: the default year, nothing selected, the end date today, empty fields. */
    constructor (unit: Unit, today: string)
      ensures this.unit == unit && selectedYear == DEFAULT_YEAR && selectedProjectId == ""
      ensures reportDateStart == "" && reportDateEnd == today
      ensures pastPerformance == "" && nextPlan == "" && progress == 0
      ensures obstacles == "" && remarks == "" && fileLink == ""
    {
      this.unit := unit;
      selectedYear := DEFAULT_YEAR;
      selectedProjectId := "";
      reportDateStart := "";
      reportDateEnd := today;
      pastPerformance := "";
      nextPlan := "";
      progress := 0;
      obstacles := "";
      remarks := "";
      fileLink := "";
    }

    /** The unit's projects of the selected year. */
    function Candidates(projects: seq<Project>): seq<Project>
      reads this
    {
      UnitProjects(projects, unit.id, selectedYear)
    }

    /** Re-establish the selection after the year or the projects changed. */
    method SyncSelection(projects: seq<Project>)
      modifies this
      ensures selectedProjectId == FallbackSelection(Candidates(projects), old(selectedProjectId))
      ensures selectedYear == old(selectedYear) && reportDateStart == old(reportDateStart)
      ensures reportDateEnd == old(reportDateEnd) && pastPerformance == old(pastPerformance)
      ensures nextPlan == old(nextPlan) && progress == old(progress) && obstacles == old(obstacles)
      ensures remarks == old(remarks) && fileLink == old(fileLink)
    {
      var candidates := UnitProjects(projects, unit.id, selectedYear);
      if |candidates| > 0 {
        var stillExists := FindProject(candidates, selectedProjectId);
        if stillExists.None? {
          selectedProjectId := candidates[0].id;
        }
      } else {
        selectedProjectId := "";
      }
    }

    /** Choose a year; the selection then falls back as the candidates changed. */
    method SelectYear(year: string, projects: seq<Project>)
      modifies this
      ensures selectedYear == year
      ensures selectedProjectId == FallbackSelection(UnitProjects(projects, unit.id, year), old(selectedProjectId))
      ensures reportDateStart == old(reportDateStart) && reportDateEnd == old(reportDateEnd)
      ensures pastPerformance == old(pastPerformance) && nextPlan == old(nextPlan)
      ensures progress == old(progress) && obstacles == old(obstacles)
      ensures remarks == old(remarks) && fileLink == old(fileLink)
    {
      selectedYear := year;
      SyncSelection(projects);
    }

    /** With a project selected, take the past performance and the progress of its latest
      * report, or clear them when it has none; with nothing selected, change nothing. */
    method Prefill(reports: seq<Report>)
      modifies this
      ensures selectedProjectId == "" ==> pastPerformance == old(pastPerformance) && progress == old(progress)
      ensures selectedProjectId != "" && Latest(ReportsOf(reports, selectedProjectId)).None? ==>
                pastPerformance == "" && progress == 0
      ensures selectedProjectId != "" && Latest(ReportsOf(reports, selectedProjectId)).Some? ==>
                pastPerformance == Latest(ReportsOf(reports, selectedProjectId)).value.pastPerformance
                && progress == Latest(ReportsOf(reports, selectedProjectId)).value.progress
      ensures selectedYear == old(selectedYear) && selectedProjectId == old(selectedProjectId)
      ensures reportDateStart == old(reportDateStart) && reportDateEnd == old(reportDateEnd)
      ensures nextPlan == old(nextPlan) && obstacles == old(obstacles)
      ensures remarks == old(remarks) && fileLink == old(fileLink)
    {
      if selectedProjectId != "" {
        var latest := Latest(ReportsOf(reports, selectedProjectId));
        if latest.Some? {
          pastPerformance := latest.value.pastPerformance;
          progress := latest.value.progress;
        } else {
          pastPerformance := "";
          progress := 0;
        }
      }
    }

    /** Submit the form: without a selection nothing happens; otherwise the new report is saved
      * and the plan, obstacles, remarks and file link are cleared, while the progress, the past
      * performance and the dates stay. */
    method Submit(store: Store, projects: seq<Project>, newId: string, now: int) returns (saved: Option<Report>)
      modifies this, store
      ensures old(selectedProjectId) == "" ==> saved.None? && unchanged(this) && unchanged(store)
      ensures old(selectedProjectId) != "" ==>
                saved == Some(NewReport(unit, Candidates(projects), selectedProjectId, newId, now,
                                        reportDateStart, reportDateEnd, pastPerformance,
                                        old(nextPlan), progress, old(obstacles), old(remarks), old(fileLink)))
                && store.reports == Upsert(old(store.reports), saved.value, ReportId)
                && unchanged(store`units, store`projects, store`groups)
                && nextPlan == "" && obstacles == "" && remarks == "" && fileLink == ""
      ensures unchanged(this`selectedYear, this`selectedProjectId, this`reportDateStart, this`reportDateEnd)
      ensures unchanged(this`pastPerformance, this`progress)
    {
      if selectedProjectId == "" {
        return None;
      }
      var report := NewReport(unit, Candidates(projects), selectedProjectId,
                              newId, now, reportDateStart, reportDateEnd, pastPerformance,
                              nextPlan, progress, obstacles, remarks, fileLink);
      store.SaveReport(report);
      nextPlan := "";
      obstacles := "";
      remarks := "";
      fileLink := "";
      saved := Some(report);
    }
  }

  /** The picker: the unit's projects of the year, partitioned by group. */
  method GroupedProjects(projects: seq<Project>, unitId: string, year: string)
    returns (grouped: map<string, seq<Project>>, ungrouped: seq<Project>)
    ensures ungrouped == Ungrouped(UnitProjects(projects, unitId, year))
    ensures grouped.Keys == GroupIds(UnitProjects(projects, unitId, year))
    ensures forall g :: g in grouped ==> grouped[g] == InGroup(UnitProjects(projects, unitId, year), g)
  {
    grouped, ungrouped := PartitionByGroup(UnitProjects(projects, unitId, year));
  }
}
