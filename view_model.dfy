/** Derivations the components share: the reports of one project, the most recent of them,
  * and the grouped/ungrouped partition that every project picker is built from. */
module ViewModel {
  import opened Types
  import opened Seqs

  /** `reports.filter(r => r.projectId === id)`. */
  function ReportsOf(rs: seq<Report>, projectId: string): seq<Report>
  {
    Filter(rs, (r: Report) => r.projectId == projectId)
  }

  /** Element 0 after a stable sort by descending `timestamp`: a report of greatest timestamp,
    * or none for no reports. */
  function Latest(rs: seq<Report>): (r: Option<Report>)
    ensures r.None? <==> rs == []
    ensures r.Some? ==> r.value in rs && forall x :: x in rs ==> x.timestamp <= r.value.timestamp
    decreases |rs|
  {
    if rs == [] then None
    else
      match Latest(rs[1..])
      case None => Some(rs[0])
      case Some(b) => if b.timestamp > rs[0].timestamp then Some(b) else Some(rs[0])
  }

  /** Of several reports sharing the greatest timestamp, the one chosen is the earliest in the
    * list, as a stable sort leaves it first: it occurs no later than any report `rs[j]` of
    * that timestamp. */
  lemma {:induction false} LatestIsFirstOfMax(rs: seq<Report>, j: int)
    requires 0 <= j < |rs| && rs[j].timestamp == Latest(rs).value.timestamp
    ensures Latest(rs).value in rs[..j + 1]
    decreases |rs|
  {
    var l := Latest(rs).value;
    if l == rs[0] {
      assert rs[..j + 1][0] == l;
    } else {
      var rest := rs[1..];
      assert Latest(rest) == Latest(rs);
      assert j != 0 && rest[j - 1] == rs[j];
      LatestIsFirstOfMax(rest, j - 1);
      assert rs[..j + 1] == [rs[0]] + rest[..j];
    }
  }

  // ---------------------------------------------------------------------------------------
  // The picker partition
  // ---------------------------------------------------------------------------------------

  /** Projects listed outside any group (no truthy `groupId`), in order. */
  function Ungrouped(ps: seq<Project>): seq<Project>
  {
    Filter(ps, (p: Project) => GroupOf(p).None?)
  }

  /** Projects listed under group `g`, in order. */
  function InGroup(ps: seq<Project>, g: string): seq<Project>
  {
    Filter(ps, (p: Project) => GroupOf(p) == Some(g))
  }

  /** The groups some project is listed under. */
  ghost function GroupIds(ps: seq<Project>): set<string>
  {
    set p | p in ps && GroupOf(p).Some? :: GroupOf(p).value
  }

  /** The ungrouped list after one more project: it grows by the project if it has no group. */
  lemma UngroupedPrefix(ps: seq<Project>, i: int)
    requires 0 <= i < |ps|
    ensures Ungrouped(ps[..i + 1]) == Ungrouped(ps[..i]) + if GroupOf(ps[i]).None? then [ps[i]] else []
  {
    assert [ps[i]][1..] == [];
    assert ps[..i + 1] == ps[..i] + [ps[i]];
    FilterConcat(ps[..i], [ps[i]], (p: Project) => GroupOf(p).None?);
  }

  /** The list of group `g` after one more project: it grows by the project if it is in `g`. */
  lemma InGroupPrefix(ps: seq<Project>, i: int, g: string)
    requires 0 <= i < |ps|
    ensures InGroup(ps[..i + 1], g) == InGroup(ps[..i], g) + if GroupOf(ps[i]) == Some(g) then [ps[i]] else []
  {
    assert [ps[i]][1..] == [];
    assert ps[..i + 1] == ps[..i] + [ps[i]];
    FilterConcat(ps[..i], [ps[i]], (p: Project) => GroupOf(p) == Some(g));
  }

  /** The groups in use after one more project: its group joins them, if it has one. */
  lemma GroupIdsPrefix(ps: seq<Project>, i: int)
    requires 0 <= i < |ps|
    ensures GroupIds(ps[..i + 1]) == GroupIds(ps[..i]) + if GroupOf(ps[i]).Some? then {GroupOf(ps[i]).value} else {}
  {
    assert ps[..i + 1] == ps[..i] + [ps[i]];
  }

  /** The group lists after one more ungrouped project stay as they are. */
  lemma UngroupedStep(ps: seq<Project>, i: int, grouped: map<string, seq<Project>>)
    requires 0 <= i < |ps| && GroupOf(ps[i]).None?
    requires grouped.Keys == GroupIds(ps[..i])
    requires forall g :: g in grouped ==> grouped[g] == InGroup(ps[..i], g)
    ensures grouped.Keys == GroupIds(ps[..i + 1])
    ensures forall g :: g in grouped ==> grouped[g] == InGroup(ps[..i + 1], g)
  {
    GroupIdsPrefix(ps, i);
    forall g | g in grouped ensures grouped[g] == InGroup(ps[..i + 1], g) {
      InGroupPrefix(ps, i, g);
    }
  }

  /** The group lists after one more project of group `g`: the list of `g` (new if need be)
    * grows by it and the others stay. */
  lemma GroupedStep(ps: seq<Project>, i: int, grouped: map<string, seq<Project>>, g: string)
    requires 0 <= i < |ps| && GroupOf(ps[i]) == Some(g)
    requires grouped.Keys == GroupIds(ps[..i])
    requires forall h :: h in grouped ==> grouped[h] == InGroup(ps[..i], h)
    ensures var next := grouped[g := (if g in grouped then grouped[g] else []) + [ps[i]]];
            next.Keys == GroupIds(ps[..i + 1])
            && forall h :: h in next ==> next[h] == InGroup(ps[..i + 1], h)
  {
    GroupIdsPrefix(ps, i);
    var current := if g in grouped then grouped[g] else [];
    var next := grouped[g := current + [ps[i]]];
    forall h | h in next ensures next[h] == InGroup(ps[..i + 1], h) {
      InGroupPrefix(ps, i, h);
      if h == g && g !in grouped {
        FilterNone(ps[..i], (q: Project) => GroupOf(q) == Some(g));
      }
    }
  }

  /** Build `{ grouped, ungrouped }` by pushing each project onto its group's list or onto the
    * ungrouped list. */
  method PartitionByGroup(ps: seq<Project>) returns (grouped: map<string, seq<Project>>, ungrouped: seq<Project>)
    ensures ungrouped == Ungrouped(ps)
    ensures grouped.Keys == GroupIds(ps)
    ensures forall g :: g in grouped ==> grouped[g] == InGroup(ps, g)
  {
    grouped := map[];
    ungrouped := [];
    for i := 0 to |ps|
      invariant ungrouped == Ungrouped(ps[..i])
      invariant grouped.Keys == GroupIds(ps[..i])
      invariant forall g :: g in grouped ==> grouped[g] == InGroup(ps[..i], g)
    {
      var p := ps[i];
      UngroupedPrefix(ps, i);
      if p.groupId.Some? && p.groupId.value != "" {
        var g := p.groupId.value;
        GroupedStep(ps, i, grouped, g);
        var current := if g in grouped then grouped[g] else [];
        grouped := grouped[g := current + [p]];
      } else {
        UngroupedStep(ps, i, grouped);
        ungrouped := ungrouped + [p];
      }
    }
    assert ps[..|ps|] == ps;
  }

  /** Every project is listed exactly as often as it occurs: under its own group if it has one,
    * otherwise among the ungrouped, and under no other group. */
  lemma PartitionExactlyOnce(ps: seq<Project>, p: Project)
    ensures GroupOf(p).None? ==> multiset(Ungrouped(ps))[p] == multiset(ps)[p]
    ensures GroupOf(p).Some? ==> multiset(InGroup(ps, GroupOf(p).value))[p] == multiset(ps)[p]
                                 && multiset(Ungrouped(ps))[p] == 0
    ensures forall g :: Some(g) != GroupOf(p) ==> multiset(InGroup(ps, g))[p] == 0
  {
    FilterCount(ps, (q: Project) => GroupOf(q).None?, p);
    if GroupOf(p).Some? {
      FilterCount(ps, (q: Project) => GroupOf(q) == GroupOf(p), p);
    }
    forall g | Some(g) != GroupOf(p) ensures multiset(InGroup(ps, g))[p] == 0 {
      FilterCount(ps, (q: Project) => GroupOf(q) == Some(g), p);
    }
  }
}
