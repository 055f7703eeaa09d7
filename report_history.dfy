/** The report history (components/ReportHistory.tsx): the reports a user may see, the filter
  * over them, their ordering newest first, the project picker and the delete permission. */
module ReportHistory {
  import opened Types
  import opened Seqs
  import opened Text
  import opened ViewModel

  /** With a current unit, only that unit's reports; otherwise all of them. */
  function VisibleReports(reports: seq<Report>, currentUnit: Option<string>): (r: seq<Report>)
    ensures !Present(currentUnit) ==> r == reports
    ensures Present(currentUnit) ==> forall x :: x in r <==> x in reports && x.unitId == currentUnit.value
  {
    if Present(currentUnit) then Filter(reports, (x: Report) => x.unitId == currentUnit.value) else reports
  }

  /** The fiscal year of the report's project; the default year also when the project is gone. */
  function ReportYear(r: Report, projects: seq<Project>): (y: string)
    ensures FindProject(projects, r.projectId).None? ==> y == DEFAULT_YEAR
    ensures FindProject(projects, r.projectId).Some? ==> y == YearOf(FindProject(projects, r.projectId).value)
    ensures y != ""
  {
    match FindProject(projects, r.projectId)
    case None => DEFAULT_YEAR
    case Some(p) => YearOf(p)
  }

  /** The lowercased term occurs in the report's project name, in the short name of its unit
    * (empty when the unit is missing), or in its four free-text fields joined together. */
  predicate SearchHit(r: Report, units: seq<Unit>, searchTerm: string)
  {
    var term := Lower(searchTerm);
    var unit := FindUnit(units, r.unitId);
    var unitName := if unit.Some? then Lower(unit.value.shortName) else "";
    Contains(Lower(r.projectName), term)
    || Contains(unitName, term)
    || Contains(Lower(r.pastPerformance + r.nextPlan + r.obstacles + r.remarks), term)
  }

  /** The filter of the history: year (unless `'all'`), project (unless `'all'`), both date
    * bounds inclusive and both on the report's start date, and the search term when given. */
  predicate Keep(r: Report, projects: seq<Project>, units: seq<Unit>, filterYear: string,
                 filterProject: string, dateStart: string, dateEnd: string, searchTerm: string): (b: bool)
    ensures filterYear == ALL && filterProject == ALL && dateStart == "" && dateEnd == "" && searchTerm == "" ==> b
    ensures b && filterYear != ALL ==> ReportYear(r, projects) == filterYear
    ensures b && filterProject != ALL ==> r.projectId == filterProject
    ensures b && dateStart != "" ==> !LexLess(r.reportDateStart, dateStart)
    ensures b && dateEnd != "" ==> !LexLess(dateEnd, r.reportDateStart)
  {
    (filterYear == ALL || ReportYear(r, projects) == filterYear)
    && (filterProject == ALL || r.projectId == filterProject)
    && (dateStart == "" || !LexLess(r.reportDateStart, dateStart))
    && (dateEnd == "" || !LexLess(dateEnd, r.reportDateStart))
    && (searchTerm == "" || SearchHit(r, units, searchTerm))
  }

  /** The visible reports the filter keeps, in their stored order. */
  function MatchingReports(reports: seq<Report>, currentUnit: Option<string>, projects: seq<Project>,
                           units: seq<Unit>, filterYear: string, filterProject: string,
                           dateStart: string, dateEnd: string, searchTerm: string): (r: seq<Report>)
    ensures forall x :: x in r <==> x in reports && (Present(currentUnit) ==> x.unitId == currentUnit.value)
                                    && Keep(x, projects, units, filterYear, filterProject, dateStart, dateEnd, searchTerm)
  {
    Filter(VisibleReports(reports, currentUnit),
           (r: Report) => Keep(r, projects, units, filterYear, filterProject, dateStart, dateEnd, searchTerm))
  }

  /** Newest first: timestamps never increase along the list. */
  predicate SortedDesc(s: seq<Report>)
  {
    forall k, l :: 0 <= k < l < |s| ==> s[k].timestamp >= s[l].timestamp
  }

  /** Exchange two elements of the array. */
  method Swap(a: array<Report>, x: int, y: int)
    requires 0 <= x < a.Length && 0 <= y < a.Length
    modifies a
    ensures a[x] == old(a[y]) && a[y] == old(a[x])
    ensures forall k :: 0 <= k < a.Length && k != x && k != y ==> a[k] == old(a[k])
    ensures multiset(a[..]) == old(multiset(a[..]))
  {
    a[x], a[y] := a[y], a[x];
  }

  /** Move `a[i]` down into the sorted prefix `a[..i]`, so that `a[..i + 1]` is sorted. */
  method InsertIntoSorted(a: array<Report>, i: int)
    requires 0 <= i < a.Length
    requires forall k, l :: 0 <= k < l < i ==> a[k].timestamp >= a[l].timestamp
    modifies a
    ensures forall k, l :: 0 <= k < l <= i ==> a[k].timestamp >= a[l].timestamp
    ensures multiset(a[..]) == multiset(old(a[..]))
    ensures a[i + 1..] == old(a[i + 1..])
  {
    var j := i;
    while j > 0 && a[j - 1].timestamp < a[j].timestamp
      invariant 0 <= j <= i
      invariant multiset(a[..]) == multiset(old(a[..]))
      invariant a[i + 1..] == old(a[i + 1..])
      invariant forall k, l :: 0 <= k < l <= i && k != j && l != j ==> a[k].timestamp >= a[l].timestamp
      invariant forall l :: j < l <= i ==> a[j].timestamp >= a[l].timestamp
      invariant 0 < j < i ==> a[j - 1].timestamp >= a[j + 1].timestamp
    {
      Swap(a, j - 1, j);
      j := j - 1;
    }
  }

  /** The in-place sort by descending timestamp, as insertion sort. */
  method SortByTimestampDesc(a: array<Report>)
    modifies a
    ensures SortedDesc(a[..])
    ensures multiset(a[..]) == multiset(old(a[..]))
  {
    for i := 0 to a.Length
      invariant forall k, l :: 0 <= k < l < i ==> a[k].timestamp >= a[l].timestamp
      invariant multiset(a[..]) == multiset(old(a[..]))
    {
      InsertIntoSorted(a, i);
    }
  }

  /** The filtered history: exactly the visible reports the filter keeps, as often as they
    * occur, newest first. */
  method FilteredReports(reports: seq<Report>, currentUnit: Option<string>, projects: seq<Project>,
                         units: seq<Unit>, filterYear: string, filterProject: string,
                         dateStart: string, dateEnd: string, searchTerm: string)
    returns (result: seq<Report>)
    ensures SortedDesc(result)
    ensures multiset(result)
            == multiset(MatchingReports(reports, currentUnit, projects, units, filterYear, filterProject, dateStart, dateEnd, searchTerm))
    ensures forall r :: r in result <==>
              r in VisibleReports(reports, currentUnit)
              && Keep(r, projects, units, filterYear, filterProject, dateStart, dateEnd, searchTerm)
  {
    var matching := MatchingReports(reports, currentUnit, projects, units, filterYear, filterProject, dateStart, dateEnd, searchTerm);
    var a := new Report[|matching|](i requires 0 <= i < |matching| => matching[i]);
    assert a[..] == matching;
    SortByTimestampDesc(a);
    result := a[..];
    forall r ensures r in result <==> r in matching {
      assert r in result <==> multiset(result)[r] > 0;
      assert r in matching <==> multiset(matching)[r] > 0;
    }
  }

  /** The delete button is shown when no unit is logged in or the report is the unit's own. */
  predicate CanDelete(currentUnit: Option<string>, r: Report)
  {
    !Present(currentUnit) || currentUnit.value == r.unitId
  }

  /** A unit user can delete every report it sees, and none of another unit's. */
  lemma VisibleReportsDeletable(reports: seq<Report>, currentUnit: Option<string>)
    ensures forall r :: r in VisibleReports(reports, currentUnit) ==> CanDelete(currentUnit, r)
    ensures Present(currentUnit) ==> forall r: Report :: r.unitId != currentUnit.value ==> !CanDelete(currentUnit, r)
  {
  }

  /** Projects of the selected year, narrowed to the current unit when there is one. */
  function HistoryCandidates(projects: seq<Project>, filterYear: string, currentUnit: Option<string>): (r: seq<Project>)
    ensures forall p :: p in r <==> p in projects && YearOf(p) == filterYear
                                    && (!Present(currentUnit) || p.unitId == currentUnit.value)
  {
    var byYear := Filter(projects, (p: Project) => YearOf(p) == filterYear);
    if Present(currentUnit) then Filter(byYear, (p: Project) => p.unitId == currentUnit.value) else byYear
  }

  /** The picker's candidates, partitioned by group. */
  method AvailableProjects(projects: seq<Project>, filterYear: string, currentUnit: Option<string>)
    returns (grouped: map<string, seq<Project>>, ungrouped: seq<Project>)
    ensures ungrouped == Ungrouped(HistoryCandidates(projects, filterYear, currentUnit))
    ensures grouped.Keys == GroupIds(HistoryCandidates(projects, filterYear, currentUnit))
    ensures forall g :: g in grouped ==> grouped[g] == InGroup(HistoryCandidates(projects, filterYear, currentUnit), g)
  {
    grouped, ungrouped := PartitionByGroup(HistoryCandidates(projects, filterYear, currentUnit));
  }
}
