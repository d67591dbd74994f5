/** The 22 steps that a re-scan window can always take in are the most it can: for every greater span, a trace
    whose run spans it and leans as far as half-height readings allow slips out of the next window. */
module WindowLimit {
  import opened Common
  import opened SlitFitting
  import opened CenterBounds
  import opened AutoAlign

  /** Plate level, a run of `span` steps at level `half` but for its last ten points at twice that, plate level. */
  function LopsidedTrace(span: nat, count: nat, half: real): (r: seq<real>)
    requires 23 <= span && span + 3 <= count
    ensures |r| == count
  {
    seq(count, i => if 1 <= i < span - 8 then half else if span - 8 <= i < span + 2 then 2.0 * half else 0.0)
  }

  function Above(w: seq<real>, baseline: real): (r: seq<real>)
    ensures |r| == |w|
  {
    seq(|w|, i requires 0 <= i < |w| => baseline + w[i])
  }

  lemma {:induction false} LevelMoment(w: seq<real>, level: real, at: real, lo: nat, hi: nat)
    requires lo <= hi <= |w| && forall i :: lo <= i < hi ==> w[i] == level
    ensures StepMoment(w, at, lo, hi) == Torque(LinearSum(at, lo, hi), level)
  {
    if lo < hi {
      LevelMoment(w, level, at, lo, hi - 1);
      TorqueAdds(LinearSum(at, lo, hi - 1), (hi - 1) as real - at, level);
    }
  }

  lemma {:induction false} MomentSplits(w: seq<real>, at: real, lo: nat, mid: nat, hi: nat)
    requires lo <= mid <= hi <= |w|
    ensures StepMoment(w, at, lo, hi) == StepMoment(w, at, lo, mid) + StepMoment(w, at, mid, hi)
  {
    if mid < hi { MomentSplits(w, at, lo, mid, hi - 1); }
  }

  lemma TorqueDoubles(a: real, half: real)
    ensures Torque(a, 2.0 * half) == Torque(2.0 * a, half)
  {
    TorqueOfSum(a, half, half);
    TorqueAdds(a, a, half);
  }

  lemma LopsidedTorques(n: real, half: real)
    ensures Torque(-Torque(7.0, n - 9.0), half) + Torque(-Torque(6.5 - n / 2.0, 10.0), 2.0 * half) == Torque(3.0 * n - 67.0, half)
  {
    assert Torque(7.0, n - 9.0) == 7.0 * n - 63.0 && Torque(6.5 - n / 2.0, 10.0) == 65.0 - 5.0 * n;
    TorqueDoubles(-(65.0 - 5.0 * n), half);
    TorqueAdds(-(7.0 * n - 63.0), -(130.0 - 10.0 * n), half);
  }

  /** The moment about the point two steps beyond the middle. */
  lemma LopsidedMoment(span: nat, count: nat, half: real)
    requires 23 <= span && span + 3 <= count
    ensures StepMoment(LopsidedTrace(span, count, half), Middle(1, span + 1) + 2.0, 1, span + 2) == Torque(3.0 * span as real - 67.0, half)
  {
    var w, at, n := LopsidedTrace(span, count, half), Middle(1, span + 1) + 2.0, span as real;
    MomentSplits(w, at, 1, span - 8, span + 2);
    LevelMoment(w, half, at, 1, span - 8);
    LevelMoment(w, 2.0 * half, at, span - 8, span + 2);
    assert at == Middle(1, span - 9) + 7.0 == Middle(span - 8, span + 1) + (6.5 - n / 2.0);
    LinearSumAbout(7.0, 1, span - 9);
    LinearSumAbout(6.5 - n / 2.0, span - 8, span + 1);
    LopsidedTorques(n, half);
  }

  lemma LopsidedRun(span: nat, count: nat, half: real)
    requires 23 <= span && span + 3 <= count && half > 0.0
    ensures var w := LopsidedTrace(span, count, half); RunOf(w) == Run(w, span - 8, 2.0 * half, 1, 1, span + 1)
  {
    var w := LopsidedTrace(span, count, half);
    PeakIndexIsPeak(w);
    var k := PeakIndex(w);
    assert w[span - 8] == 2.0 * half;
    assert Abs(w[span - 8]) <= Abs(w[k]);
    assert k == span - 8;
    assert Signed(w, 1) == w;
    RunIsMaximal(w);
    var r := RunOf(w);
    assert r.signed == w && r.contrast == 2.0 * half;
    assert w[0] == 0.0 && w[span + 2] == 0.0;
    assert forall i :: 1 <= i <= span + 1 ==> w[i] >= half;
  }

  /** An accepted even scan whose run spans so many steps, and part of that run is outside the next window. */
  ghost predicate LosesRun(pass: nat, start: real, step: real, readings: seq<real>, minContrast: real, baseline: real, span: nat)
    requires |readings| > 0
  {
    var x := EvenScan(start, step, |readings|);
    var out := FitOf(x, readings, minContrast, Some(baseline));
    && out.Ok? && out.value.nPoints == span + 1
    && var prev := Scan(pass, start, step, readings, out.value);
       (RunStart(x, readings, prev.fit) < prev.fit.center - HalfWidth(prev) || prev.fit.center + HalfWidth(prev) < RunEnd(x, readings, prev.fit))
  }

  /** The lopsided trace has its centre more than two steps beyond the middle of its run. */
  lemma LopsidedMean(span: nat, count: nat, half: real, start: real, step: real)
    requires 23 <= span && span + 3 <= count && step > 0.0 && half > 0.0
    ensures var w := LopsidedTrace(span, count, half);
            && Mass(w, 1, span + 2) > 0.0
            && WeightedMean(EvenScan(start, step, count), w, 1, span + 2) > Along(start, step, Middle(1, span + 1) + 2.0)
  {
    var w := LopsidedTrace(span, count, half);
    LopsidedRun(span, count, half);
    AcceptedRunHasMass(w);
    LopsidedMoment(span, count, half);
    PositiveTorque(3.0 * span as real - 67.0, half);
    MeanStrictlyBeyond(start, step, w, Middle(1, span + 1) + 2.0, 1, span + 2);
  }

  /** Two steps beyond the middle of a run that starts at the second point, less the half width of its next window. */
  lemma WindowStart(start: real, step: real, span: nat)
    ensures var width := Along(start, step, (span + 1) as real) - Along(start, step, 1.0);
            Along(start, step, Middle(1, span + 1) + 2.0) - (width / 2.0 + 2.0 * step) == Along(start, step, 1.0)
  {
    var n := span as real;
    assert Middle(1, span + 1) == n / 2.0 + 1.0;
    assert step * (n + 1.0) - step == step * n && step * (n / 2.0 + 3.0) == step * n / 2.0 + 3.0 * step;
  }

  /** On any even scan the lopsided trace is accepted with its run, and the window of the next pass starts beyond the
      first position of that run. */
  lemma LongerRunsSlipOut(span: nat, count: nat, pass: nat, start: real, step: real, minContrast: real, baseline: real)
    requires 23 <= span && span + 3 <= count && step > 0.0 && minContrast > 0.0
    ensures LosesRun(pass, start, step, Above(LopsidedTrace(span, count, minContrast), baseline), minContrast, baseline, span)
  {
    var w := LopsidedTrace(span, count, minContrast);
    LopsidedRun(span, count, minContrast);
    assert Deviations(Above(w, baseline), baseline) == w;
    LopsidedMean(span, count, minContrast, start, step);
    WindowStart(start, step, span);
  }

  /** What an accepted run tells of the scan. */
  lemma RunFits(start: real, step: real, readings: seq<real>, minContrast: real, baseline: real)
    requires |readings| > 0 && step > 0.0 && FitOf(EvenScan(start, step, |readings|), readings, minContrast, Some(baseline)).Ok?
    ensures var x := EvenScan(start, step, |readings|);
            var fit := FitOf(x, readings, minContrast, Some(baseline)).value;
            && 1 <= fit.nPoints && fit.nPoints + 2 <= |readings|
            && fit.width == RunEnd(x, readings, fit) - RunStart(x, readings, fit)
  {
    EvenScanAscends(start, step, |readings|);
    FitIsTheMaximalRun(EvenScan(start, step, |readings|), readings, minContrast, Some(baseline));
  }

  /** A scan of `count` points can lose part of a run of `span` steps exactly for spans from 23 to `count - 3`: none
      with up to 25 points per pass, and no more than 97 steps with the 100 points a request may ask for. */
  lemma SlipsOutExactly(span: nat, count: nat, pass: nat, start: real, step: real, minContrast: real, baseline: real)
    requires count > 0 && step > 0.0 && minContrast > 0.0
    ensures (exists readings: seq<real> :: |readings| == count && LosesRun(pass, start, step, readings, minContrast, baseline, span))
            <==> 23 <= span && span + 3 <= count
  {
    if 23 <= span && span + 3 <= count {
      LongerRunsSlipOut(span, count, pass, start, step, minContrast, baseline);
      assert |Above(LopsidedTrace(span, count, minContrast), baseline)| == count;
    }
    forall readings: seq<real> | |readings| == count && LosesRun(pass, start, step, readings, minContrast, baseline, span)
      ensures 23 <= span && span + 3 <= count
    {
      RunFits(start, step, readings, minContrast, baseline);
      if span <= 22 { CenterWithinTwoSteps(start, step, readings, minContrast, Some(baseline)); }
    }
  }

  lemma QuotientBeyond(moment0: real, mass: real, about: real, moment: real)
    requires mass > 0.0 && moment > 0.0 && moment == moment0 - about * mass
    ensures moment0 / mass > about
  {
    CenterAgainst(moment0, mass, about, moment);
    SignOfFactor(moment0 / mass - about, mass);
  }

  lemma MeanBeyond(x: seq<real>, w: seq<real>, about: real, lo: nat, hi: nat)
    requires lo <= hi <= |w| && |x| == |w| && Mass(w, lo, hi) > 0.0 && Moment(x, w, about, lo, hi) > 0.0
    ensures WeightedMean(x, w, lo, hi) > about
  {
    MomentShift(x, w, about, lo, hi);
    QuotientBeyond(Moment(x, w, 0.0, lo, hi), Mass(w, lo, hi), about, Moment(x, w, about, lo, hi));
  }

  lemma MeanStrictlyBeyond(start: real, step: real, w: seq<real>, at: real, lo: nat, hi: nat)
    requires lo <= hi <= |w| && step > 0.0 && Mass(w, lo, hi) > 0.0 && StepMoment(w, at, lo, hi) > 0.0
    ensures WeightedMean(EvenScan(start, step, |w|), w, lo, hi) > Along(start, step, at)
  {
    MomentInSteps(start, step, w, at, lo, hi);
    PositiveTorque(step, StepMoment(w, at, lo, hi));
    MeanBeyond(EvenScan(start, step, |w|), w, Along(start, step, at), lo, hi);
  }

  lemma PositiveTorque(a: real, b: real)
    requires a > 0.0 && b > 0.0
    ensures Torque(a, b) > 0.0
  {
  }
}
