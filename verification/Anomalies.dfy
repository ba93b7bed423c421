/** Anomaly detection over one metric's series: each candidate against the observed periods before it. */
module Anomalies {
  import opened Text
  import opened Pricing

  datatype Point = Point(start: int, value: Option<int>)
  datatype Reading = Reading(start: int, value: int)
  datatype Policy = Policy(periods: nat, thresholdMilli: nat, floor: nat)

  datatype Finding = Finding(above: bool, start: int, observed: int, baseline: int, periods: nat,
                             baselineStart: int, baselineEnd: int, deviationMilli: int, thresholdMilli: nat)

  /** Only buckets that have an observation: a gap is not a zero. */
  function Observed(points: seq<Point>): (r: seq<Reading>)
    ensures |r| <= |points|
  {
    if points == [] then []
    else
      var last := points[|points| - 1];
      Observed(points[..|points| - 1]) + if last.value.None? then [] else [Reading(last.start, last.value.value)]
  }

  function Sum(window: seq<Reading>): int {
    if window == [] then 0 else Sum(window[..|window| - 1]) + window[|window| - 1].value
  }

  /** The mean of the preceding periods, truncated toward zero. */
  function Baseline(observed: seq<Reading>, i: nat, p: Policy): int
    requires 1 <= p.periods <= i <= |observed|
  {
    TruncDiv(Sum(observed[i - p.periods..i]), p.periods)
  }

  datatype Verdict = Quiet | DividesByZero | Found(finding: Finding)

  function Assess(observed: seq<Reading>, i: nat, p: Policy): Verdict
    requires 1 <= p.periods <= i < |observed|
  {
    var baseline := Baseline(observed, i, p);
    if Abs(baseline) < p.floor then Quiet
    else if baseline == 0 then DividesByZero
    else
      var deviation := TruncDiv((observed[i].value - baseline) * 1000, Abs(baseline));
      if Abs(deviation) < p.thresholdMilli then Quiet
      else Found(Finding(deviation > 0, observed[i].start, observed[i].value, baseline, p.periods,
                         observed[i - p.periods].start, observed[i - 1].start, deviation, p.thresholdMilli))
  }

  /** The findings among the first n observed periods; absent when the arithmetic threw on the way. */
  function Findings(observed: seq<Reading>, n: nat, p: Policy): Option<seq<Finding>>
    requires 1 <= p.periods && n <= |observed|
    decreases n
  {
    if n <= p.periods then Some([])
    else
      var before := Findings(observed, n - 1, p);
      if before.None? then None
      else
        match Assess(observed, n - 1, p)
        case DividesByZero => None
        case Quiet => before
        case Found(f) => Some(before.value + [f])
  }

  function Detected(points: seq<Point>, p: Policy): Option<seq<Finding>>
    requires 1 <= p.periods
  {
    Findings(Observed(points), |Observed(points)|, p)
  }

  method CollectObserved(points: seq<Point>) returns (observed: seq<Reading>)
    ensures observed == Observed(points)
  {
    observed := [];
    for i := 0 to |points|
      invariant observed == Observed(points[..i])
    {
      assert points[..i + 1][..i] == points[..i];
      if points[i].value.Some? {
        observed := observed + [Reading(points[i].start, points[i].value.value)];
      }
    }
    assert points[..|points|] == points;
  }

  method MeanOf(window: seq<Reading>) returns (mean: int)
    requires window != []
    ensures mean == TruncDiv(Sum(window), |window|)
  {
    var sum := 0;
    for k := 0 to |window|
      invariant sum == Sum(window[..k])
    {
      assert window[..k + 1][..k] == window[..k];
      sum := sum + window[k].value;
    }
    assert window[..|window|] == window;
    mean := TruncDiv(sum, |window|);
  }

  /** One candidate against the window before it. */
  method AssessCandidate(observed: seq<Reading>, i: nat, p: Policy) returns (v: Verdict)
    requires 1 <= p.periods <= i < |observed|
    ensures v == Assess(observed, i, p)
  {
    var window := observed[i - p.periods..i];
    var baseline := MeanOf(window);
    var magnitude := if baseline < 0 then -baseline else baseline;
    if magnitude < p.floor {
      return Quiet;
    }
    if magnitude == 0 {
      return DividesByZero;
    }
    var deviation := TruncDiv((observed[i].value - baseline) * 1000, magnitude);
    if Abs(deviation) < p.thresholdMilli {
      return Quiet;
    }
    return Found(Finding(deviation > 0, observed[i].start, observed[i].value, baseline, |window|,
                         window[0].start, window[|window| - 1].start, deviation, p.thresholdMilli));
  }

  method DetectAnomalies(points: seq<Point>, p: Policy) returns (r: Option<seq<Finding>>)
    requires 1 <= p.periods
    ensures r == Detected(points, p)
  {
    var observed := CollectObserved(points);
    var anomalies: seq<Finding> := [];
    var i := p.periods;
    while i < |observed|
      invariant p.periods <= i && (i <= |observed| || i == p.periods)
      invariant Findings(observed, Least(i, |observed|), p) == Some(anomalies)
      decreases |observed| - i
    {
      var v := AssessCandidate(observed, i, p);
      FindingsNext(observed, i, p);
      match v {
        case Quiet =>
        case DividesByZero =>
          FindingsThrowOnwards(observed, i + 1, |observed|, p);
          return None;
        case Found(f) => anomalies := anomalies + [f];
      }
      i := i + 1;
    }
    return Some(anomalies);
  }

  lemma FindingsNext(observed: seq<Reading>, i: nat, p: Policy)
    requires 1 <= p.periods <= i < |observed| && Findings(observed, i, p).Some?
    ensures Findings(observed, i + 1, p) == match Assess(observed, i, p)
                                            case DividesByZero => None
                                            case Quiet => Findings(observed, i, p)
                                            case Found(f) => Some(Findings(observed, i, p).value + [f])
  {
  }

  function Least(a: nat, b: nat): nat {
    if a < b then a else b
  }

  lemma {:induction false} FindingsThrowOnwards(observed: seq<Reading>, m: nat, n: nat, p: Policy)
    requires 1 <= p.periods && m <= n <= |observed| && Findings(observed, m, p).None?
    ensures Findings(observed, n, p).None?
    decreases n
  {
    if m < n {
      FindingsThrowOnwards(observed, m, n - 1, p);
    }
  }

  // --- No hindsight ------------------------------------------------------------------------------------------

  lemma AssessOfPrefix(observed: seq<Reading>, more: seq<Reading>, i: nat, p: Policy)
    requires 1 <= p.periods <= i < |observed|
    ensures Assess(observed + more, i, p) == Assess(observed, i, p)
  {
    assert (observed + more)[i - p.periods..i] == observed[i - p.periods..i];
  }

  lemma {:induction false} FindingsOfPrefix(observed: seq<Reading>, more: seq<Reading>, n: nat, p: Policy)
    requires 1 <= p.periods && n <= |observed|
    ensures Findings(observed + more, n, p) == Findings(observed, n, p)
    decreases n
  {
    if n > p.periods {
      FindingsOfPrefix(observed, more, n - 1, p);
      AssessOfPrefix(observed, more, n - 1, p);
    }
  }

  lemma {:induction false} FindingsOnlyGrow(observed: seq<Reading>, m: nat, n: nat, p: Policy)
    requires 1 <= p.periods && m <= n <= |observed| && Findings(observed, n, p).Some?
    ensures Findings(observed, m, p).Some? && Findings(observed, m, p).value <= Findings(observed, n, p).value
    decreases n
  {
    if m < n {
      FindingsOnlyGrow(observed, m, n - 1, p);
    }
  }

  lemma {:induction false} ObservedConcat(a: seq<Point>, b: seq<Point>)
    ensures Observed(a + b) == Observed(a) + Observed(b)
    decreases |b|
  {
    if b == [] {
      assert a + b == a;
    } else {
      assert (a + b)[..|a + b| - 1] == a + b[..|b| - 1];
      ObservedConcat(a, b[..|b| - 1]);
    }
  }

  /** More data never changes a finding: the result on the first part of a series is the first part of the result. */
  lemma NoHindsight(points: seq<Point>, more: seq<Point>, p: Policy)
    requires 1 <= p.periods && Detected(points + more, p).Some?
    ensures Detected(points, p).Some? && Detected(points, p).value <= Detected(points + more, p).value
  {
    ObservedConcat(points, more);
    var a, b := Observed(points), Observed(more);
    FindingsOnlyGrow(a + b, |a|, |a + b|, p);
    FindingsOfPrefix(a, b, |a|, p);
  }

  /** Empty buckets change nothing, wherever they are put in or left out. */
  lemma GapsAreIgnored(before: seq<Point>, gaps: seq<Point>, after: seq<Point>, p: Policy)
    requires 1 <= p.periods && forall i :: 0 <= i < |gaps| ==> gaps[i].value.None?
    ensures Detected(before + gaps + after, p) == Detected(before + after, p)
  {
    ObservedConcat(before + gaps, after);
    ObservedConcat(before, gaps);
    ObservedConcat(before, after);
    OnlyGaps(gaps);
    assert Observed(before) + [] == Observed(before);
  }

  lemma {:induction false} OnlyGaps(gaps: seq<Point>)
    requires forall i :: 0 <= i < |gaps| ==> gaps[i].value.None?
    ensures Observed(gaps) == []
  {
    if gaps != [] {
      OnlyGaps(gaps[..|gaps| - 1]);
    }
  }

  // --- What a finding says -----------------------------------------------------------------------------------

  /** The i-th observed period stands out: its baseline is above the floor, and it is past the threshold. */
  predicate StandsOut(observed: seq<Reading>, i: nat, p: Policy)
    requires 1 <= p.periods <= i < |observed|
  {
    var baseline := Baseline(observed, i, p);
    && p.floor <= Abs(baseline)
    && Abs(observed[i].value - baseline) * 1000 >= p.thresholdMilli * Abs(baseline)
  }

  lemma DivideNat(x: nat, n: nat)
    requires 0 < n
    ensures (x / n) * n <= x < (x / n) * n + n && 0 <= x / n
  {
    assert x == (x / n) * n + x % n;
  }

  /** Truncation toward zero loses less than one unit of the divisor, and never the sign. */
  lemma TruncatesTowardZero(a: int, n: int)
    requires 0 < n
    ensures Abs(TruncDiv(a, n)) * n <= Abs(a) < Abs(TruncDiv(a, n)) * n + n
    ensures TruncDiv(a, n) > 0 ==> a > 0
    ensures TruncDiv(a, n) < 0 ==> a < 0
  {
    DivideNat(Abs(a), n);
    assert Abs(n) == n;
    var q := Abs(a) / n;
    assert TruncDiv(a, n) == if a < 0 then -q else q;
    if a == 0 {
      assert q * n <= 0;
    }
  }

  /** So a rounded deviation is past a whole threshold exactly when the exact one is. */
  lemma RoundingKeepsThreshold(a: int, n: int, t: nat)
    requires 0 < n
    ensures Abs(TruncDiv(a, n)) >= t <==> Abs(a) >= t * n
  {
    TruncatesTowardZero(a, n);
    var q := Abs(TruncDiv(a, n));
    if q >= t {
      MulMonotone(t, q, n);
    } else {
      MulMonotone(q + 1, t, n);
      assert (q + 1) * n == q * n + n;
    }
  }

  lemma AbsTimes(a: int)
    ensures Abs(a * 1000) == Abs(a) * 1000
  {
  }

  lemma AssessMeans(observed: seq<Reading>, i: nat, p: Policy)
    requires 1 <= p.periods <= i < |observed| && 1 <= p.thresholdMilli
    ensures var v, baseline := Assess(observed, i, p), Baseline(observed, i, p);
            && (v.DividesByZero? <==> p.floor == 0 && baseline == 0)
            && (!v.DividesByZero? ==> (v.Found? <==> StandsOut(observed, i, p)))
            && (v.Found? ==>
                  && v.finding.baseline == baseline && v.finding.start == observed[i].start && v.finding.observed == observed[i].value
                  && (v.finding.above <==> observed[i].value > baseline) && observed[i].value != baseline)
  {
    var baseline := Baseline(observed, i, p);
    if p.floor <= Abs(baseline) && baseline != 0 {
      var a := (observed[i].value - baseline) * 1000;
      RoundingKeepsThreshold(a, Abs(baseline), p.thresholdMilli);
      AbsTimes(observed[i].value - baseline);
      TruncatesTowardZero(a, Abs(baseline));
    }
  }

  /** Where in the series the findings come from, in order. */
  ghost predicate ComeFrom(observed: seq<Reading>, n: nat, p: Policy, findings: seq<Finding>, at: seq<nat>)
    requires 1 <= p.periods && n <= |observed|
  {
    && |at| == |findings|
    && (forall k :: 0 <= k < |at| ==> p.periods <= at[k] < n && Assess(observed, at[k], p) == Found(findings[k]))
    && (forall j, k :: 0 <= j < k < |at| ==> at[j] < at[k])
    && (forall i :: p.periods <= i < n && StandsOut(observed, i, p) ==> i in at)
  }

  lemma ComeFromOneMore(observed: seq<Reading>, n: nat, p: Policy, findings: seq<Finding>, at: seq<nat>)
    requires 1 <= p.periods <= n < |observed| && 1 <= p.thresholdMilli
    requires ComeFrom(observed, n, p, findings, at) && !Assess(observed, n, p).DividesByZero?
    ensures var v := Assess(observed, n, p);
            if v.Found? then ComeFrom(observed, n + 1, p, findings + [v.finding], at + [n])
            else ComeFrom(observed, n + 1, p, findings, at)
  {
    AssessMeans(observed, n, p);
  }

  /**
   * The findings are exactly the periods that stand out, each once, in order; and each is measured against the
   * truncated mean of exactly the preceding observed periods.
   */
  lemma {:induction false} FindingsAreWhatStandsOut(observed: seq<Reading>, n: nat, p: Policy) returns (at: seq<nat>)
    requires 1 <= p.periods && 1 <= p.thresholdMilli && n <= |observed| && Findings(observed, n, p).Some?
    ensures ComeFrom(observed, n, p, Findings(observed, n, p).value, at)
    decreases n
  {
    if n <= p.periods {
      at := [];
    } else {
      FindingsOnlyGrow(observed, n - 1, n, p);
      at := FindingsAreWhatStandsOut(observed, n - 1, p);
      ComeFromOneMore(observed, n - 1, p, Findings(observed, n - 1, p).value, at);
      var v := Assess(observed, n - 1, p);
      if v.Found? {
        at := at + [n - 1];
      }
    }
  }

  /** Detection throws exactly when the configured floor is zero and some baseline truncates to zero. */
  lemma {:induction false} ThrowsExactlyOnAZeroBaseline(observed: seq<Reading>, n: nat, p: Policy)
    requires 1 <= p.periods && 1 <= p.thresholdMilli && n <= |observed|
    ensures Findings(observed, n, p).None? <==>
            p.floor == 0 && exists i :: p.periods <= i < n && Baseline(observed, i, p) == 0
    decreases n
  {
    if n > p.periods {
      ThrowsExactlyOnAZeroBaseline(observed, n - 1, p);
      AssessMeans(observed, n - 1, p);
    }
  }

  /** The series, for every window: one more quiet period than the baseline takes, under a floor of zero. */
  lemma QuietSeriesThrows(p: Policy)
    requires 1 <= p.periods && 1 <= p.thresholdMilli && p.floor == 0
    ensures Findings(seq(p.periods + 1, i requires 0 <= i <= p.periods => Reading(i, 0)), p.periods + 1, p).None?
  {
    var observed := seq(p.periods + 1, i requires 0 <= i <= p.periods => Reading(i, 0));
    SumOfZeros(observed[0..p.periods]);
    assert Baseline(observed, p.periods, p) == 0;
    ThrowsExactlyOnAZeroBaseline(observed, p.periods + 1, p);
  }

  lemma {:induction false} SumOfZeros(window: seq<Reading>)
    requires forall i :: 0 <= i < |window| ==> window[i].value == 0
    ensures Sum(window) == 0
  {
    if window != [] {
      SumOfZeros(window[..|window| - 1]);
    }
  }

  // --- What a finding compares, position by position ---------------------------------------------------------

  /** The values of the n observed periods right before position i. */
  function TotalBefore(observed: seq<Reading>, i: nat, n: nat): int
    requires n <= i <= |observed|
  {
    if n == 0 then 0 else observed[i - 1].value + TotalBefore(observed, i - 1, n - 1)
  }

  lemma {:induction false} WindowIsBefore(observed: seq<Reading>, i: nat, n: nat)
    requires n <= i <= |observed|
    ensures Sum(observed[i - n..i]) == TotalBefore(observed, i, n)
    decreases n
  {
    if n > 0 {
      var window := observed[i - n..i];
      assert window[..n - 1] == observed[i - n..i - 1] && window[n - 1] == observed[i - 1];
      WindowIsBefore(observed, i - 1, n - 1);
    }
  }

  /** The baseline is the mean of exactly the preceding periods, losing less than one unit toward zero. */
  lemma BaselineIsTheMean(observed: seq<Reading>, i: nat, p: Policy)
    requires 1 <= p.periods <= i <= |observed|
    ensures var b, total := Baseline(observed, i, p), TotalBefore(observed, i, p.periods);
            && Abs(b) * p.periods <= Abs(total) < (Abs(b) + 1) * p.periods
            && (b > 0 ==> total > 0) && (b < 0 ==> total < 0)
  {
    WindowIsBefore(observed, i, p.periods);
    TruncatesTowardZero(Sum(observed[i - p.periods..i]), p.periods);
    var q := Abs(Baseline(observed, i, p));
    assert (q + 1) * p.periods == q * p.periods + p.periods;
  }

  /** What a finding says of itself: the period, its value, the periods it was measured against, and the deviation in thousandths. */
  lemma FindingSaysWhatItCompared(observed: seq<Reading>, i: nat, p: Policy)
    requires 1 <= p.periods <= i < |observed| && Assess(observed, i, p).Found?
    ensures var f, b := Assess(observed, i, p).finding, Baseline(observed, i, p);
            && f.start == observed[i].start && f.observed == observed[i].value && f.baseline == b && b != 0
            && f.baselineStart == observed[i - p.periods].start && f.baselineEnd == observed[i - 1].start
            && f.periods == p.periods && f.thresholdMilli == p.thresholdMilli
            && Abs(f.deviationMilli) * Abs(b) <= Abs(f.observed - b) * 1000 < (Abs(f.deviationMilli) + 1) * Abs(b)
            && (f.deviationMilli > 0 ==> f.observed > b) && (f.deviationMilli < 0 ==> f.observed < b)
            && (f.above <==> f.deviationMilli > 0)
  {
    var f, b := Assess(observed, i, p).finding, Baseline(observed, i, p);
    TruncatesTowardZero((observed[i].value - b) * 1000, Abs(b));
    AbsTimes(observed[i].value - b);
    assert (Abs(f.deviationMilli) + 1) * Abs(b) == Abs(f.deviationMilli) * Abs(b) + Abs(b);
  }

  /** The series that is assessed is the points with an observation, in their order and with their values, and no others. */
  lemma {:induction false} ObservedPointsInOrder(a: seq<Point>, b: seq<Point>, start: int, value: int)
    ensures Observed([Point(start, Some(value))]) == [Reading(start, value)]
    ensures Observed([Point(start, None)]) == []
    ensures Observed(a + b) == Observed(a) + Observed(b)
    decreases |b|
  {
    assert [Point(start, Some(value))][..0] == [] && [Point(start, None)][..0] == [];
    if b == [] {
      assert a + b == a;
    } else {
      assert (a + b)[..|a + b| - 1] == a + b[..|b| - 1];
      ObservedPointsInOrder(a, b[..|b| - 1], start, value);
    }
  }
}
