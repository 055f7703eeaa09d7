/** The dashboard (components/Dashboard.tsx): the report and project filters, the latest report
  * of every target project, the status counters and the average progress, and the candidate
  * list of the project picker. */
module Dashboard {
  import opened Types
  import opened Seqs
  import opened Text
  import opened ViewModel

  // ---------------------------------------------------------------------------------------
  // Report filters
  // ---------------------------------------------------------------------------------------

  /** A report passes every active report filter: unit and project unless `'all'`, a start date
    * not after the report's start, an end date not before the report's end (dates compared as
    * strings; an empty date bound is inactive). */
  predicate ReportPasses(r: Report, filterUnit: string, filterProject: string, dateStart: string, dateEnd: string)
  {
    (filterUnit == ALL || r.unitId == filterUnit)
    && (filterProject == ALL || r.projectId == filterProject)
    && (dateStart == "" || !LexLess(r.reportDateStart, dateStart))
    && (dateEnd == "" || !LexLess(dateEnd, r.reportDateEnd))
  }

  /** The chain of conditional filters that narrows `reports`. */
  function FilterReports(reports: seq<Report>, filterUnit: string, filterProject: string,
                         dateStart: string, dateEnd: string): (r: seq<Report>)
    ensures forall x :: x in r <==> x in reports && ReportPasses(x, filterUnit, filterProject, dateStart, dateEnd)
  {
    var byUnit := if filterUnit != ALL then Filter(reports, (x: Report) => x.unitId == filterUnit) else reports;
    var byProject := if filterProject != ALL then Filter(byUnit, (x: Report) => x.projectId == filterProject) else byUnit;
    var byStart := if dateStart != "" then Filter(byProject, (x: Report) => !LexLess(x.reportDateStart, dateStart)) else byProject;
    if dateEnd != "" then Filter(byStart, (x: Report) => !LexLess(dateEnd, x.reportDateEnd)) else byStart
  }

  /** The chain is one order-preserving filter by the conjunction of the active filters: a
    * report is kept, as often as it occurs, iff it passes them all. */
  lemma FilterReportsIsConjunction(reports: seq<Report>, filterUnit: string, filterProject: string,
                                   dateStart: string, dateEnd: string)
    ensures FilterReports(reports, filterUnit, filterProject, dateStart, dateEnd)
            == Filter(reports, (x: Report) => ReportPasses(x, filterUnit, filterProject, dateStart, dateEnd))
    ensures forall x :: multiset(FilterReports(reports, filterUnit, filterProject, dateStart, dateEnd))[x]
                        == if ReportPasses(x, filterUnit, filterProject, dateStart, dateEnd) then multiset(reports)[x] else 0
  {
    var f1 := (x: Report) => x.unitId == filterUnit;
    var f2 := (x: Report) => x.projectId == filterProject;
    var f3 := (x: Report) => !LexLess(x.reportDateStart, dateStart);
    var f4 := (x: Report) => !LexLess(dateEnd, x.reportDateEnd);
    var g1 := (x: Report) => filterUnit == ALL || x.unitId == filterUnit;
    var g2 := (x: Report) => g1(x) && (filterProject == ALL || x.projectId == filterProject);
    var g3 := (x: Report) => g2(x) && (dateStart == "" || !LexLess(x.reportDateStart, dateStart));
    var all := (x: Report) => ReportPasses(x, filterUnit, filterProject, dateStart, dateEnd);
    var s1 := if filterUnit != ALL then Filter(reports, f1) else reports;
    assert s1 == Filter(reports, g1) by {
      FilterWhen(filterUnit != ALL, reports, f1, g1);
    }
    var s2 := if filterProject != ALL then Filter(s1, f2) else s1;
    assert s2 == Filter(reports, g2) by {
      FilterThenWhen(reports, g1, filterProject != ALL, f2, g2);
    }
    var s3 := if dateStart != "" then Filter(s2, f3) else s2;
    assert s3 == Filter(reports, g3) by {
      FilterThenWhen(reports, g2, dateStart != "", f3, g3);
    }
    assert FilterReports(reports, filterUnit, filterProject, dateStart, dateEnd) == Filter(reports, all) by {
      FilterThenWhen(reports, g3, dateEnd != "", f4, all);
    }
    forall x ensures multiset(Filter(reports, all))[x] == if all(x) then multiset(reports)[x] else 0 {
      FilterCount(reports, all, x);
    }
  }

  // ---------------------------------------------------------------------------------------
  // Target projects
  // ---------------------------------------------------------------------------------------

  /** The lowercased search term occurs in the project's name, or in the name or short name
    * of its unit when the unit exists. */
  predicate MatchesSearch(p: Project, units: seq<Unit>, searchTerm: string)
  {
    var term := Lower(searchTerm);
    var unit := FindUnit(units, p.unitId);
    Contains(Lower(p.name), term)
    || (unit.Some? && Contains(Lower(unit.value.name), term))
    || (unit.Some? && Contains(Lower(unit.value.shortName), term))
  }

  /** A project is a target: its year (default `"2569"`) is the selected year, and it passes
    * the unit, project and search filters that are active. */
  predicate ProjectPasses(p: Project, units: seq<Unit>, filterYear: string, filterUnit: string,
                          filterProject: string, searchTerm: string)
  {
    YearOf(p) == filterYear
    && (filterUnit == ALL || p.unitId == filterUnit)
    && (filterProject == ALL || p.id == filterProject)
    && (searchTerm == "" || MatchesSearch(p, units, searchTerm))
  }

  /** The chain of filters that picks the target projects. */
  function TargetProjects(projects: seq<Project>, units: seq<Unit>, filterYear: string, filterUnit: string,
                          filterProject: string, searchTerm: string): (r: seq<Project>)
    ensures forall p :: p in r <==> p in projects && ProjectPasses(p, units, filterYear, filterUnit, filterProject, searchTerm)
  {
    var byYear := Filter(projects, (p: Project) => YearOf(p) == filterYear);
    var byUnit := if filterUnit != ALL then Filter(byYear, (p: Project) => p.unitId == filterUnit) else byYear;
    var byId := if filterProject != ALL then Filter(byUnit, (p: Project) => p.id == filterProject) else byUnit;
    if searchTerm != "" then Filter(byId, (p: Project) => MatchesSearch(p, units, searchTerm)) else byId
  }

  /** The target projects are the order-preserving filter of `projects` by the conjunction
    * of the year filter and the active unit, project and search filters. */
  lemma TargetProjectsIsConjunction(projects: seq<Project>, units: seq<Unit>, filterYear: string,
                                    filterUnit: string, filterProject: string, searchTerm: string)
    ensures TargetProjects(projects, units, filterYear, filterUnit, filterProject, searchTerm)
            == Filter(projects, (p: Project) => ProjectPasses(p, units, filterYear, filterUnit, filterProject, searchTerm))
  {
    var f0 := (p: Project) => YearOf(p) == filterYear;
    var f1 := (p: Project) => p.unitId == filterUnit;
    var f2 := (p: Project) => p.id == filterProject;
    var f3 := (p: Project) => MatchesSearch(p, units, searchTerm);
    var g1 := (p: Project) => f0(p) && (filterUnit == ALL || p.unitId == filterUnit);
    var g2 := (p: Project) => g1(p) && (filterProject == ALL || p.id == filterProject);
    var all := (p: Project) => ProjectPasses(p, units, filterYear, filterUnit, filterProject, searchTerm);
    var s0 := Filter(projects, f0);
    var s1 := if filterUnit != ALL then Filter(s0, f1) else s0;
    assert s1 == Filter(projects, g1) by {
      FilterThenWhen(projects, f0, filterUnit != ALL, f1, g1);
    }
    var s2 := if filterProject != ALL then Filter(s1, f2) else s1;
    assert s2 == Filter(projects, g2) by {
      FilterThenWhen(projects, g1, filterProject != ALL, f2, g2);
    }
    assert TargetProjects(projects, units, filterYear, filterUnit, filterProject, searchTerm) == Filter(projects, all) by {
      FilterThenWhen(projects, g2, searchTerm != "", f3, all);
    }
  }

  // ---------------------------------------------------------------------------------------
  // The latest report of each target project
  // ---------------------------------------------------------------------------------------

  /** Fill the project map: for each target project, the first of its filtered reports after
    * sorting them by descending timestamp, or none when it has no filtered report. */
  method BuildProjectMap(targets: seq<Project>, filtered: seq<Report>) returns (m: map<string, Option<Report>>)
    ensures m.Keys == set p | p in targets :: p.id
    ensures forall p :: p in targets ==> m[p.id] == Latest(ReportsOf(filtered, p.id))
    ensures forall p :: p in targets ==> (m[p.id].None? <==> forall r :: r in filtered ==> r.projectId != p.id)
    ensures forall p :: p in targets && m[p.id].Some? ==>
              m[p.id].value in filtered && m[p.id].value.projectId == p.id
              && forall r :: r in filtered && r.projectId == p.id ==> r.timestamp <= m[p.id].value.timestamp
  {
    m := map[];
    for i := 0 to |targets|
      invariant m.Keys == set p | p in targets[..i] :: p.id
      invariant forall k :: k in m ==> m[k] == Latest(ReportsOf(filtered, k))
    {
      var p := targets[i];
      var pReports := ReportsOf(filtered, p.id);
      if |pReports| > 0 {
        m := m[p.id := Latest(pReports)];
      } else {
        m := m[p.id := None];
      }
      assert targets[..i + 1] == targets[..i] + [p];
    }
    assert targets[..|targets|] == targets;
  }

  // ---------------------------------------------------------------------------------------
  // Status counters and the average
  // ---------------------------------------------------------------------------------------

  datatype Status = NotStarted | InProgress | Completed

  /** No report or progress 0: not started; progress 100: completed; anything else: in progress. */
  function Classify(r: Option<Report>): (st: Status)
    ensures st == NotStarted <==> r.None? || r.value.progress == 0
    ensures st == Completed <==> r.Some? && r.value.progress == 100
  {
    if r.None? || r.value.progress == 0 then NotStarted
    else if r.value.progress == 100 then Completed
    else InProgress
  }

  /** The report a project's status is read from (`projectMap.get(p.id)`). */
  function EntryOf(m: map<string, Option<Report>>, p: Project): Option<Report>
  {
    if p.id in m then m[p.id] else None
  }

  /** How many of `ps` have status `st`. */
  function CountStatus(ps: seq<Project>, m: map<string, Option<Report>>, st: Status): nat
    decreases |ps|
  {
    if ps == [] then 0
    else (if Classify(EntryOf(m, ps[0])) == st then 1 else 0) + CountStatus(ps[1..], m, st)
  }

  /** The sum of the progress of the projects that are not "not started". */
  function ProgressSum(ps: seq<Project>, m: map<string, Option<Report>>): int
    decreases |ps|
  {
    if ps == [] then 0
    else
      var r := EntryOf(m, ps[0]);
      (if Classify(r) == NotStarted then 0 else r.value.progress) + ProgressSum(ps[1..], m)
  }

  /** `Math.round(a / b)` for a positive divisor: floor of `a / b + 1/2`. */
  function RoundDiv(a: int, b: int): (q: int)
    requires b > 0
    ensures 2 * b * q <= 2 * a + b < 2 * b * (q + 1)
  {
    (2 * a + b) / (2 * b)
  }

  /** The average progress: the rounded sum over all target projects, 0 when none has
    * progress. */
  function AverageProgress(ps: seq<Project>, m: map<string, Option<Report>>): (avg: int)
    ensures CountStatus(ps, m, InProgress) + CountStatus(ps, m, Completed) == 0 ==> avg == 0
    ensures CountStatus(ps, m, InProgress) + CountStatus(ps, m, Completed) > 0 ==>
              2 * |ps| * avg <= 2 * ProgressSum(ps, m) + |ps| < 2 * |ps| * (avg + 1)
  {
    var withProgress := CountStatus(ps, m, InProgress) + CountStatus(ps, m, Completed);
    if withProgress > 0 && |ps| > 0 then RoundDiv(ProgressSum(ps, m), |ps|) else 0
  }

  datatype Stats = Stats(totalProjects: nat, notStarted: nat, inProgress: nat, completed: nat,
                         avgProgress: int, reportedCount: nat)

  /** The number of filtered reports that belong to some target project. */
  function ReportedCount(filtered: seq<Report>, targets: seq<Project>): (n: nat)
    ensures n <= |filtered|
  {
    |Filter(filtered, (r: Report) => exists p | p in targets :: p.id == r.projectId)|
  }

  /** Each project has exactly one status, so the three counters add up to the number of
    * projects. */
  lemma {:induction false} StatusCountsPartition(ps: seq<Project>, m: map<string, Option<Report>>)
    ensures CountStatus(ps, m, NotStarted) + CountStatus(ps, m, InProgress) + CountStatus(ps, m, Completed) == |ps|
    decreases |ps|
  {
    if ps != [] {
      StatusCountsPartition(ps[1..], m);
    }
  }

  /** All progress values in 0..100 keep the sum between 0 and 100 per project. */
  lemma {:induction false} ProgressSumBounds(ps: seq<Project>, m: map<string, Option<Report>>)
    requires forall k :: k in m && m[k].Some? ==> 0 <= m[k].value.progress <= 100
    ensures 0 <= ProgressSum(ps, m) <= 100 * |ps|
    decreases |ps|
  {
    if ps != [] {
      ProgressSumBounds(ps[1..], m);
    }
  }

  /** With progress values in 0..100 the rounded average lies in 0..100. */
  lemma AverageInRange(ps: seq<Project>, m: map<string, Option<Report>>)
    requires forall k :: k in m && m[k].Some? ==> 0 <= m[k].value.progress <= 100
    ensures 0 <= AverageProgress(ps, m) <= 100
  {
    ProgressSumBounds(ps, m);
    if |ps| > 0 {
      RoundDivBounds(ProgressSum(ps, m), |ps|);
    }
  }

  /** Rounding `a / b` for `0 <= a <= 100 * b` stays in 0..100. */
  lemma RoundDivBounds(a: int, b: int)
    requires b > 0 && 0 <= a <= 100 * b
    ensures 0 <= RoundDiv(a, b) <= 100
  {
    var q := RoundDiv(a, b);
    assert 2 * a + b < 101 * (2 * b);
    if q > 100 {
      MulMonotone(101, q, 2 * b);
    }
  }

  /** Arithmetic proof helper: multiplying by a non-negative factor keeps the order. */
  lemma MulMonotone(x: int, y: int, z: int)
    requires x <= y && z >= 0
    ensures x * z <= y * z
  {
    assert y * z - x * z == (y - x) * z;
  }

  /** The counters, computed in one pass over the target projects. */
  method ComputeStats(targets: seq<Project>, m: map<string, Option<Report>>, filtered: seq<Report>)
    returns (s: Stats)
    ensures s.totalProjects == |targets|
    ensures s.notStarted == CountStatus(targets, m, NotStarted)
    ensures s.inProgress == CountStatus(targets, m, InProgress)
    ensures s.completed == CountStatus(targets, m, Completed)
    ensures s.notStarted + s.inProgress + s.completed == s.totalProjects
    ensures s.avgProgress == AverageProgress(targets, m)
    ensures s.reportedCount == ReportedCount(filtered, targets)
  {
    var notStarted, inProgress, completed := 0, 0, 0;
    var totalProgress, countWithProgress := 0, 0;
    var i := |targets|;
    // The counters are gathered from the back, so that each step adds the head of a suffix.
    while i > 0
      invariant 0 <= i <= |targets|
      invariant notStarted == CountStatus(targets[i..], m, NotStarted)
      invariant inProgress == CountStatus(targets[i..], m, InProgress)
      invariant completed == CountStatus(targets[i..], m, Completed)
      invariant totalProgress == ProgressSum(targets[i..], m)
      invariant countWithProgress == inProgress + completed
    {
      i := i - 1;
      var p := targets[i];
      var r := EntryOf(m, p);
      assert targets[i..][1..] == targets[i + 1..];
      if r.None? || r.value.progress == 0 {
        notStarted := notStarted + 1;
      } else if r.value.progress == 100 {
        completed := completed + 1;
        totalProgress := totalProgress + 100;
        countWithProgress := countWithProgress + 1;
      } else {
        inProgress := inProgress + 1;
        totalProgress := totalProgress + r.value.progress;
        countWithProgress := countWithProgress + 1;
      }
    }
    assert targets[0..] == targets;
    StatusCountsPartition(targets, m);
    var avg := if countWithProgress > 0 && |targets| > 0 then RoundDiv(totalProgress, |targets|) else 0;
    s := Stats(|targets|, notStarted, inProgress, completed, avg, ReportedCount(filtered, targets));
  }

  /** Three projects: no report, a report at 50, a report at 100. One of each status, and an
    * average of `round(150 / 3) = 50`. */
  lemma ThreeProjectsExample(a: Project, b: Project, c: Project, r1: Report, r2: Report)
    requires a.id == "p1" && b.id == "p2" && c.id == "p3"
    requires r1.progress == 50 && r2.progress == 100
    ensures var m := map["p1" := None, "p2" := Some(r1), "p3" := Some(r2)];
            CountStatus([a, b, c], m, NotStarted) == 1
            && CountStatus([a, b, c], m, InProgress) == 1
            && CountStatus([a, b, c], m, Completed) == 1
            && AverageProgress([a, b, c], m) == 50
  {
    var m := map["p1" := None, "p2" := Some(r1), "p3" := Some(r2)];
    var ps := [a, b, c];
    assert [c][1..] == [] && [b, c][1..] == [c] && ps[1..] == [b, c];
    assert EntryOf(m, a) == None && EntryOf(m, b) == Some(r1) && EntryOf(m, c) == Some(r2);
    assert Classify(Some(r1)) == InProgress && Classify(Some(r2)) == Completed;
    forall st ensures CountStatus([c], m, st) == if st == Completed then 1 else 0 {
      assert CountStatus([c], m, st) == (if Classify(EntryOf(m, c)) == st then 1 else 0) + CountStatus([], m, st);
    }
    forall st ensures CountStatus([b, c], m, st) == if st == NotStarted then 0 else 1 {
      assert CountStatus([b, c], m, st) == (if Classify(EntryOf(m, b)) == st then 1 else 0) + CountStatus([c], m, st);
    }
    forall st ensures CountStatus(ps, m, st) == 1 {
      assert CountStatus(ps, m, st) == (if Classify(EntryOf(m, a)) == st then 1 else 0) + CountStatus([b, c], m, st);
    }
    assert ProgressSum([c], m) == 100 + ProgressSum([], m);
    assert ProgressSum([b, c], m) == 50 + ProgressSum([c], m);
    assert ProgressSum(ps, m) == 0 + ProgressSum([b, c], m);
    assert RoundDiv(150, 3) == 50;
  }

  // ---------------------------------------------------------------------------------------
  // The project picker
  // ---------------------------------------------------------------------------------------

  /** Projects of the selected year, narrowed to the selected unit unless it is `'all'`. */
  function PickerCandidates(projects: seq<Project>, filterYear: string, filterUnit: string): (r: seq<Project>)
    ensures forall p :: p in r <==> p in projects && YearOf(p) == filterYear && (filterUnit == ALL || p.unitId == filterUnit)
  {
    var byYear := Filter(projects, (p: Project) => YearOf(p) == filterYear);
    if filterUnit != ALL then Filter(byYear, (p: Project) => p.unitId == filterUnit) else byYear
  }

  /** The picker's candidates, partitioned by group. */
  method AvailableProjectsForFilter(projects: seq<Project>, filterYear: string, filterUnit: string)
    returns (grouped: map<string, seq<Project>>, ungrouped: seq<Project>)
    ensures ungrouped == Ungrouped(PickerCandidates(projects, filterYear, filterUnit))
    ensures grouped.Keys == GroupIds(PickerCandidates(projects, filterYear, filterUnit))
    ensures forall g :: g in grouped ==> grouped[g] == InGroup(PickerCandidates(projects, filterYear, filterUnit), g)
  {
    var pList := PickerCandidates(projects, filterYear, filterUnit);
    grouped, ungrouped := PartitionByGroup(pList);
  }
}
