/** The crew dashboard's per-job figures: the progress percentage shown on each
    card and the status badge. */
module CrewPage {
  import opened Domain
  import opened Numeric
  import Reports

  /** `progress.reduce((sum, p) => sum + p.percent, 0)` */
  function TotalPercent(progress: seq<Progress>): int {
    if progress == [] then 0 else TotalPercent(progress[..|progress| - 1]) + progress[|progress| - 1].percent
  }

  /** The percents of the rows, in row order. */
  function Percents(progress: seq<Progress>): (r: seq<int>)
    ensures |r| == |progress|
    ensures forall i :: 0 <= i < |r| ==> r[i] == progress[i].percent
  {
    seq(|progress|, i requires 0 <= i < |progress| => progress[i].percent)
  }

  /** `calculateProgress` */
  function CalculateProgress(progress: seq<Progress>): (r: int)
    ensures |progress| == 0 ==> r == 0
    ensures |progress| > 0 ==>
      2 * |progress| * r - |progress| <= 2 * Sum(Percents(progress)) < 2 * |progress| * r + |progress|
  {
    TotalIsSum(progress);
    if |progress| == 0 then 0 else RoundDiv(TotalPercent(progress), |progress|)
  }

  lemma {:induction false} TotalIsSum(progress: seq<Progress>)
    ensures TotalPercent(progress) == Sum(Percents(progress))
  {
    if progress != [] {
      var init := progress[..|progress| - 1];
      TotalIsSum(init);
      assert Percents(progress)[..|progress| - 1] == Percents(init);
    }
  }

  /** The dashboard and the admin report compute the same figure for a job. */
  lemma AgreesWithReport(progress: seq<Progress>)
    ensures CalculateProgress(progress) == Reports.AveragePercent(Percents(progress))
  {
    if |progress| > 0 {
      RoundDivUnique(Sum(Percents(progress)), |progress|, CalculateProgress(progress));
    }
  }

  /** Percents in [0, 100] give a figure in [0, 100]. */
  lemma InRange(progress: seq<Progress>)
    requires forall i :: 0 <= i < |progress| ==> 0 <= progress[i].percent <= 100
    ensures 0 <= CalculateProgress(progress) <= 100
  {
    AgreesWithReport(progress);
    Reports.AverageInRange(Percents(progress));
  }

  lemma PercentsAppend(a: seq<Progress>, b: seq<Progress>)
    ensures Percents(a + b) == Percents(a) + Percents(b)
  {
  }

  /** Removing the same element from two permutations leaves permutations. */
  lemma CancelOne(x: Progress, rest: seq<Progress>, before: seq<Progress>, after: seq<Progress>)
    requires multiset([x] + rest) == multiset(before + [x] + after)
    ensures multiset(rest) == multiset(before + after)
  {
    assert multiset(before + [x] + after) == multiset(before + after) + multiset{x};
    assert multiset([x] + rest) == multiset(rest) + multiset{x};
    forall y ensures multiset(rest)[y] == multiset(before + after)[y] {
      assert multiset([x] + rest)[y] == multiset(before + [x] + after)[y];
    }
  }

  lemma {:induction false} PercentsOfPermutation(xs: seq<Progress>, ys: seq<Progress>)
    requires multiset(xs) == multiset(ys)
    ensures multiset(Percents(xs)) == multiset(Percents(ys))
    decreases |xs|
  {
    if xs != [] {
      var x := xs[0];
      assert x in multiset(ys);
      var i :| 0 <= i < |ys| && ys[i] == x;
      var before, after := ys[..i], ys[i + 1..];
      assert xs == [x] + xs[1..];
      assert ys == before + [x] + after;
      CancelOne(x, xs[1..], before, after);
      PercentsOfPermutation(xs[1..], before + after);
      PercentsAppend([x], xs[1..]);
      PercentsAppend(before + [x], after);
      PercentsAppend(before, [x]);
      PercentsAppend(before, after);
      var pb, pa := Percents(before), Percents(after);
      assert Percents([x]) == [x.percent];
      assert multiset(Percents(xs)) == multiset{x.percent} + multiset(Percents(xs[1..]));
      assert multiset(Percents(ys)) == multiset(pb) + multiset{x.percent} + multiset(pa);
      assert multiset(Percents(before + after)) == multiset(pb) + multiset(pa);
    }
  }

  /** The figure does not depend on the order in which the rows arrive. */
  lemma OrderIndependent(xs: seq<Progress>, ys: seq<Progress>)
    requires multiset(xs) == multiset(ys)
    ensures CalculateProgress(xs) == CalculateProgress(ys)
  {
    assert |xs| == |multiset(xs)| == |ys|;
    PercentsOfPermutation(xs, ys);
    SumPermutation(Percents(xs), Percents(ys));
    AgreesWithReport(xs);
    AgreesWithReport(ys);
  }

  /** The status badge's text. */
  function StatusLabel(status: JobStatus): (r: string)
    ensures r == "Bekliyor" <==> status == Draft
    ensures r != "Bekliyor" ==> r == "Devam Ediyor"
  {
    if status == Draft then "Bekliyor" else "Devam Ediyor"
  }

  /** The status badge's variant: highlighted only while the job is under way. */
  function StatusVariant(status: JobStatus): (r: string)
    ensures r == "default" <==> status == InProgress
    ensures r != "default" ==> r == "secondary"
  {
    if status == InProgress then "default" else "secondary"
  }
}
