/** `getAvailableYearsFromList` (services/storageService.ts): the distinct fiscal years of the
  * projects not in the trash, newest first, or just the default year when there are none. */
module Years {
  import opened Types
  import opened Text
  import opened Seqs

  /** Sorted in descending string order with no value twice. */
  predicate StrictlyDescending(s: seq<string>)
  {
    forall i, j :: 0 <= i < j < |s| ==> LexLess(s[j], s[i])
  }

  /** Everything in a strictly descending list lies below anything above its head. */
  lemma AllBelow(s: seq<string>, y: string)
    requires StrictlyDescending(s) && s != [] && LexLess(s[0], y)
    ensures forall i :: 0 <= i < |s| ==> LexLess(s[i], y)
  {
    forall i | 0 < i < |s| ensures LexLess(s[i], y) {
      LexTransitive(s[i], s[0], y);
    }
  }

  /** Put `y` into its place in a strictly descending list, unless it is there already. */
  function InsertDesc(s: seq<string>, y: string): (r: seq<string>)
    requires StrictlyDescending(s)
    ensures StrictlyDescending(r)
    ensures forall x :: x in r <==> x in s || x == y
    decreases |s|
  {
    if s == [] then [y]
    else if s[0] == y then s
    else if LexLess(s[0], y) then
      AllBelow(s, y);
      [y] + s
    else
      LexTotal(s[0], y);
      var rest := InsertDesc(s[1..], y);
      assert forall x :: x in rest ==> LexLess(x, s[0]);
      [s[0]] + rest
  }

  /** The distinct values of `ys`, in descending order (`Array.from(new Set(ys)).sort(desc)`). */
  function DistinctDesc(ys: seq<string>): (r: seq<string>)
    ensures StrictlyDescending(r)
    ensures forall x :: x in r <==> x in ys
    decreases |ys|
  {
    if ys == [] then [] else InsertDesc(DistinctDesc(ys[1..]), ys[0])
  }

  /** The years of the projects not in the trash, a missing year counted as the default. */
  ghost function ActiveYears(ps: seq<Project>): (ys: set<string>)
    ensures forall y :: y in ys ==> y != ""
    ensures ys == {} <==> forall p :: p in ps ==> IsTrashed(p)
  {
    var ys := set p | p in ps && !IsTrashed(p) :: YearOf(p);
    assert forall p :: p in ps && !IsTrashed(p) ==> YearOf(p) in ys;
    ys
  }

  function AvailableYears(ps: seq<Project>): (r: seq<string>)
    ensures r != [] && StrictlyDescending(r)
    ensures ActiveYears(ps) == {} ==> r == [DEFAULT_YEAR]
    ensures ActiveYears(ps) != {} ==> forall y :: y in r <==> y in ActiveYears(ps)
  {
    var active := Filter(ps, (p: Project) => !IsTrashed(p));
    var years := seq(|active|, i requires 0 <= i < |active| => YearOf(active[i]));
    assert forall y :: y in years <==> y in ActiveYears(ps) by {
      forall y ensures y in years ==> y in ActiveYears(ps) {
        if y in years {
          var i :| 0 <= i < |years| && years[i] == y;
          assert active[i] in ps;
        }
      }
      forall y ensures y in ActiveYears(ps) ==> y in years {
        if y in ActiveYears(ps) {
          var p :| p in ps && !IsTrashed(p) && YearOf(p) == y;
          var i :| 0 <= i < |active| && active[i] == p;
          assert years[i] == y;
        }
      }
    }
    var distinct := DistinctDesc(years);
    if |distinct| == 0 then [DEFAULT_YEAR] else assert distinct[0] in ActiveYears(ps); distinct
  }
}
