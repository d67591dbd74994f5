/** How far the fitted centre can lie from the middle of the run it averages. The weights of an accepted run
    lie between half the contrast and the contrast, which bounds the pull of a lopsided trace
    (src/lumi/experiment/mask_align.py, lines 74-90). Distances here are in scan steps. */
module CenterBounds {
  import opened Common
  import opened SlitFitting

  /** Weights between half the contrast `c` and `c`, over `lo <= i < hi`. */
  ghost predicate HalfToFull(w: seq<real>, c: real, lo: nat, hi: nat) {
    && lo <= hi <= |w| && c > 0.0
    && forall i :: lo <= i < hi ==> c / 2.0 <= w[i] <= c
  }

  function Pos(x: real): real {
    if x > 0.0 then x else 0.0
  }

  function Torque(arm: real, weight: real): real {
    arm * weight
  }

  /** Sum of `(i - at) * w[i]` over `lo <= i < hi`: the moment in scan steps about the point `at`. */
  ghost function StepMoment(w: seq<real>, at: real, lo: nat, hi: nat): real
    requires lo <= hi <= |w|
  {
    if lo == hi then 0.0 else StepMoment(w, at, lo, hi - 1) + Torque((hi - 1) as real - at, w[hi - 1])
  }

  ghost function LinearSum(at: real, lo: nat, hi: nat): real
    requires lo <= hi
  {
    if lo == hi then 0.0 else LinearSum(at, lo, hi - 1) + ((hi - 1) as real - at)
  }

  /** Sum of the arms to the right of `at`. */
  ghost function RightSum(at: real, lo: nat, hi: nat): real
    requires lo <= hi
  {
    if lo == hi then 0.0 else RightSum(at, lo, hi - 1) + Pos((hi - 1) as real - at)
  }

  /** Sum of the arms to the left of `at`. */
  ghost function LeftSum(at: real, lo: nat, hi: nat): real
    requires lo <= hi
  {
    if lo == hi then 0.0 else LeftSum(at, lo, hi - 1) + Pos(at - (hi - 1) as real)
  }

  lemma TorqueBounds(arm: real, w: real, c: real)
    requires c > 0.0 && c / 2.0 <= w <= c
    ensures Torque(arm, w) <= Torque(arm + Pos(arm), c / 2.0)
    ensures Torque(arm, w) >= Torque(arm - Pos(-arm), c / 2.0)
  {
    var full := Torque(2.0 * arm, c / 2.0);
    assert full == arm * c;
    assert Torque(arm, w) - Torque(arm, c / 2.0) == arm * (w - c / 2.0);
    assert full - Torque(arm, w) == arm * (c - w);
    ProductSign(arm, c - w);
    ProductSign(arm, w - c / 2.0);
    if arm > 0.0 {
      assert arm + Pos(arm) == 2.0 * arm && arm - Pos(-arm) == arm;
    } else {
      assert arm + Pos(arm) == arm && arm - Pos(-arm) == 2.0 * arm;
    }
  }

  lemma TorqueAdds(a: real, b: real, c: real)
    ensures Torque(a, c) + Torque(b, c) == Torque(a + b, c)
  {
  }

  lemma {:induction false} MomentAtMost(w: seq<real>, c: real, at: real, lo: nat, hi: nat)
    requires HalfToFull(w, c, lo, hi)
    ensures StepMoment(w, at, lo, hi) <= Torque(LinearSum(at, lo, hi) + RightSum(at, lo, hi), c / 2.0)
    ensures StepMoment(w, at, lo, hi) >= Torque(LinearSum(at, lo, hi) - LeftSum(at, lo, hi), c / 2.0)
  {
    if lo < hi {
      MomentAtMost(w, c, at, lo, hi - 1);
      var arm := (hi - 1) as real - at;
      TorqueBounds(arm, w[hi - 1], c);
      TorqueAdds(LinearSum(at, lo, hi - 1) + RightSum(at, lo, hi - 1), arm + Pos(arm), c / 2.0);
      TorqueAdds(LinearSum(at, lo, hi - 1) - LeftSum(at, lo, hi - 1), arm - Pos(-arm), c / 2.0);
    }
  }

  function Square(x: real): real {
    x * x
  }

  lemma SquareStep(u: real)
    ensures Square(u - 0.5) + 2.0 * u == Square(u + 0.5)
    ensures Square(u) >= 0.0
  {
  }

  lemma {:induction false} RightSumZero(at: real, lo: nat, hi: nat)
    requires lo <= hi && (hi as real) - 1.0 <= at
    ensures RightSum(at, lo, hi) == 0.0
  {
    if lo < hi { RightSumZero(at, lo, hi - 1); }
  }

  lemma {:induction false} RightSumBound(at: real, lo: nat, hi: nat)
    requires lo <= hi
    ensures 2.0 * RightSum(at, lo, hi) <= Square(hi as real - 0.5 - at)
  {
    SquareStep(hi as real - 0.5 - at);
    if lo < hi {
      var u := (hi - 1) as real - at;
      if u <= 0.0 {
        RightSumZero(at, lo, hi);
      } else {
        RightSumBound(at, lo, hi - 1);
        SquareStep(u);
      }
    }
  }

  lemma {:induction false} LeftSumFront(at: real, lo: nat, hi: nat)
    requires lo < hi
    ensures LeftSum(at, lo, hi) == Pos(at - lo as real) + LeftSum(at, lo + 1, hi)
  {
    if lo + 1 < hi { LeftSumFront(at, lo, hi - 1); }
  }

  lemma {:induction false} LeftSumZero(at: real, lo: nat, hi: nat)
    requires lo <= hi && at <= lo as real
    ensures LeftSum(at, lo, hi) == 0.0
  {
    if lo < hi { LeftSumZero(at, lo, hi - 1); }
  }

  lemma {:induction false} LeftSumBound(at: real, lo: nat, hi: nat)
    requires lo <= hi
    ensures 2.0 * LeftSum(at, lo, hi) <= Square(at - lo as real + 0.5)
    decreases hi - lo
  {
    SquareStep(at - lo as real + 0.5);
    if lo < hi {
      var u := at - lo as real;
      if u <= 0.0 {
        LeftSumZero(at, lo, hi);
      } else {
        LeftSumFront(at, lo, hi);
        LeftSumBound(at, lo + 1, hi);
        SquareStep(u);
      }
    }
  }

  function Middle(lo: nat, hi: nat): real {
    (lo + hi) as real / 2.0
  }

  lemma {:induction false} LinearSumTriangle(lo: nat, hi: nat)
    requires lo <= hi
    ensures 2.0 * LinearSum(0.0, lo, hi) == ((hi - lo) * (lo + hi - 1)) as real
  {
    if lo < hi {
      LinearSumTriangle(lo, hi - 1);
      assert (hi - lo) * (lo + hi - 1) == (hi - 1 - lo) * (lo + hi - 2) + 2 * (hi - 1);
    }
  }

  lemma {:induction false} LinearSumShift(at: real, lo: nat, hi: nat)
    requires lo <= hi
    ensures LinearSum(at, lo, hi) == LinearSum(0.0, lo, hi) - Torque(at, (hi - lo) as real)
  {
    if lo < hi {
      LinearSumShift(at, lo, hi - 1);
      assert Torque(at, (hi - 1 - lo) as real) + at == Torque(at, (hi - lo) as real);
    }
  }

  lemma TriangleOfRun(n: nat, ends: nat)
    ensures (n * ends) as real == 2.0 * Torque(ends as real / 2.0, n as real)
  {
    assert (n * ends) as real == n as real * ends as real;
  }

  /** The arms of a run about a point `off` from its middle add up to `-off` per point. */
  lemma LinearSumAbout(off: real, lo: nat, hi: nat)
    requires lo <= hi
    ensures LinearSum(Middle(lo, hi) + off, lo, hi + 1) == -Torque(off, (hi - lo + 1) as real)
  {
    var n, at := hi - lo + 1, Middle(lo, hi) + off;
    LinearSumTriangle(lo, hi + 1);
    LinearSumShift(at, lo, hi + 1);
    TriangleOfRun(n, lo + hi);
    TorqueAdds(Middle(lo, hi), off, n as real);
  }

  /** A run of `span` steps cannot pull its centre more than `off` steps from the middle, because the most
      lopsided weights do not. */
  ghost predicate Holds(span: nat, off: real) {
    off >= 0.0 && Square(span as real / 2.0 - off + 0.5) <= 2.0 * Torque(off, (span + 1) as real)
  }

  lemma TorqueSign(a: real, c: real)
    requires c >= 0.0
    ensures a <= 0.0 ==> Torque(a, c) <= 0.0
    ensures a >= 0.0 ==> Torque(a, c) >= 0.0
  {
  }

  lemma PullIsBounded(w: seq<real>, c: real, lo: nat, hi: nat, off: real)
    requires lo <= hi && HalfToFull(w, c, lo, hi + 1) && Holds(hi - lo, off)
    ensures StepMoment(w, Middle(lo, hi) + off, lo, hi + 1) <= 0.0
    ensures StepMoment(w, Middle(lo, hi) - off, lo, hi + 1) >= 0.0
  {
    var right, left, half := Middle(lo, hi) + off, Middle(lo, hi) - off, (hi - lo) as real / 2.0;
    MomentAtMost(w, c, right, lo, hi + 1);
    RightSumBound(right, lo, hi + 1);
    assert (hi + 1) as real - 0.5 - right == half - off + 0.5;
    LinearSumAbout(off, lo, hi);
    TorqueSign(LinearSum(right, lo, hi + 1) + RightSum(right, lo, hi + 1), c / 2.0);

    MomentAtMost(w, c, left, lo, hi + 1);
    LeftSumBound(left, lo, hi + 1);
    assert left - lo as real + 0.5 == half - off + 0.5;
    LinearSumAbout(-off, lo, hi);
    assert Torque(-off, (hi - lo + 1) as real) == -Torque(off, (hi - lo + 1) as real);
    TorqueSign(LinearSum(left, lo, hi + 1) - LeftSum(left, lo, hi + 1), c / 2.0);
  }

  /** Two steps hold every run of up to 22 steps. */
  lemma TwoStepsHold(span: nat)
    requires span <= 22
    ensures Holds(span, 2.0)
  {
    var n := span as real;
    TorqueSign(n, 22.0 - n);
    assert Torque(n, 22.0 - n) == 22.0 * n - n * n;
    assert Square(n / 2.0 - 1.5) == n * n / 4.0 - 1.5 * n + 2.25;
  }

  /** A sixth of the run's span holds it, whatever the span (a two-point run is the tight case). */
  lemma SixthHolds(span: nat)
    requires span != 1
    ensures Holds(span, span as real / 6.0) || span == 0
  {
    var n := span as real;
    if span >= 2 {
      assert n * n >= 4.0;
      assert Square(n / 2.0 - n / 6.0 + 0.5) == n * n / 9.0 + n / 3.0 + 0.25;
      assert 2.0 * Torque(n / 6.0, n + 1.0) == n * n / 3.0 + n / 3.0;
    }
  }

  lemma TwoTerms(w: seq<real>, at: real, lo: nat)
    requires lo + 2 <= |w|
    ensures StepMoment(w, at, lo, lo + 2) == (lo as real - at) * w[lo] + ((lo + 1) as real - at) * w[lo + 1]
  {
    assert StepMoment(w, at, lo, lo + 1) == StepMoment(w, at, lo, lo) + Torque(lo as real - at, w[lo]);
  }

  lemma TwoPointPull(w: seq<real>, c: real, lo: nat)
    requires HalfToFull(w, c, lo, lo + 2)
    ensures StepMoment(w, Middle(lo, lo + 1) + 1.0 / 6.0, lo, lo + 2) <= 0.0
    ensures StepMoment(w, Middle(lo, lo + 1) - 1.0 / 6.0, lo, lo + 2) >= 0.0
  {
    TwoTerms(w, Middle(lo, lo + 1) + 1.0 / 6.0, lo);
    TwoTerms(w, Middle(lo, lo + 1) - 1.0 / 6.0, lo);
  }

  /** Every run, whatever its span, keeps its centre within a sixth of its span of the middle. */
  lemma PullWithinSixth(w: seq<real>, c: real, lo: nat, hi: nat)
    requires lo <= hi && HalfToFull(w, c, lo, hi + 1)
    ensures var off := (hi - lo) as real / 6.0;
            && StepMoment(w, Middle(lo, hi) + off, lo, hi + 1) <= 0.0
            && StepMoment(w, Middle(lo, hi) - off, lo, hi + 1) >= 0.0
  {
    if hi - lo == 1 {
      TwoPointPull(w, c, lo);
    } else if hi == lo {
      assert StepMoment(w, Middle(lo, hi), lo, hi + 1) == Torque(lo as real - Middle(lo, hi), w[lo]);
    } else {
      SixthHolds(hi - lo);
      PullIsBounded(w, c, lo, hi, (hi - lo) as real / 6.0);
    }
  }

  // ----- evenly spaced scans ------------------------------------------------------------

  function Along(start: real, step: real, at: real): real {
    start + step * at
  }

  /** `count` scan positions from `start`, `step` apart. */
  function EvenScan(start: real, step: real, count: nat): (x: seq<real>)
    ensures |x| == count
  {
    seq(count, i requires 0 <= i < count => Along(start, step, i as real))
  }

  lemma AlongRises(start: real, step: real, a: real, b: real)
    requires step > 0.0
    ensures a < b ==> Along(start, step, a) < Along(start, step, b)
    ensures a <= b ==> Along(start, step, a) <= Along(start, step, b)
    ensures Along(start, step, b) - Along(start, step, a) == Torque(step, b - a)
  {
    assert step * b - step * a == step * (b - a);
  }

  lemma EvenScanAscends(start: real, step: real, count: nat)
    requires step > 0.0
    ensures Ascending(EvenScan(start, step, count))
  {
    forall i, j | 0 <= i < j < count
      ensures EvenScan(start, step, count)[i] < EvenScan(start, step, count)[j]
    {
      AlongRises(start, step, i as real, j as real);
    }
  }

  lemma TorqueOfSum(c: real, a: real, b: real)
    ensures Torque(c, a) + Torque(c, b) == Torque(c, a + b)
  {
  }

  lemma ArmInSteps(start: real, step: real, i: real, at: real, weight: real)
    ensures (Along(start, step, i) - Along(start, step, at)) * weight == Torque(step, Torque(i - at, weight))
  {
    assert step * i - step * at == step * (i - at);
  }

  lemma {:induction false} MomentInSteps(start: real, step: real, w: seq<real>, at: real, lo: nat, hi: nat)
    requires lo <= hi <= |w|
    ensures Moment(EvenScan(start, step, |w|), w, Along(start, step, at), lo, hi) == Torque(step, StepMoment(w, at, lo, hi))
  {
    if lo < hi {
      MomentInSteps(start, step, w, at, lo, hi - 1);
      ArmInSteps(start, step, (hi - 1) as real, at, w[hi - 1]);
      TorqueOfSum(step, StepMoment(w, at, lo, hi - 1), Torque((hi - 1) as real - at, w[hi - 1]));
    }
  }

  lemma TorqueCommutes(a: real, b: real)
    ensures Torque(a, b) == Torque(b, a)
  {
  }

  lemma MomentFromSteps(start: real, step: real, w: seq<real>, at: real, lo: nat, hi: nat)
    requires lo <= hi <= |w| && step > 0.0
    ensures var m := Moment(EvenScan(start, step, |w|), w, Along(start, step, at), lo, hi);
            (StepMoment(w, at, lo, hi) <= 0.0 ==> m <= 0.0) && (StepMoment(w, at, lo, hi) >= 0.0 ==> m >= 0.0)
  {
    MomentInSteps(start, step, w, at, lo, hi);
    TorqueSign(StepMoment(w, at, lo, hi), step);
    TorqueCommutes(step, StepMoment(w, at, lo, hi));
  }

  /** Where the mean lies, from the sign of the moment in steps. */
  lemma MeanBeside(start: real, step: real, w: seq<real>, at: real, lo: nat, hi: nat)
    requires lo <= hi <= |w| && step > 0.0 && Mass(w, lo, hi) > 0.0
    ensures var mean := WeightedMean(EvenScan(start, step, |w|), w, lo, hi);
            && (StepMoment(w, at, lo, hi) <= 0.0 ==> mean <= Along(start, step, at))
            && (StepMoment(w, at, lo, hi) >= 0.0 ==> mean >= Along(start, step, at))
  {
    MomentFromSteps(start, step, w, at, lo, hi);
    MeanAgainst(EvenScan(start, step, |w|), w, Along(start, step, at), lo, hi);
  }

  /** An accepted run has weights between half the contrast and the contrast. */
  lemma AcceptedWeights(dev: seq<real>)
    requires |dev| > 0
    requires var r := RunOf(dev); r.lo > 0 && r.hi < |dev| - 1
    ensures var r := RunOf(dev); HalfToFull(r.signed, r.contrast, r.lo, r.hi + 1) && Mass(r.signed, r.lo, r.hi + 1) > 0.0
  {
    AcceptedRunHasMass(dev);
    RunPeaks(dev);
    RunIsMaximal(dev);
  }

  /** The run of a scan: from its first position to its last. */
  ghost function RunStart(positions: seq<real>, readings: seq<real>, fit: SlitFit): real
    requires |positions| == |readings| > 0
  {
    positions[RunOf(Deviations(readings, fit.baseline)).lo]
  }

  ghost function RunEnd(positions: seq<real>, readings: seq<real>, fit: SlitFit): real
    requires |positions| == |readings| > 0
  {
    positions[RunOf(Deviations(readings, fit.baseline)).hi]
  }

  lemma CenterBetween(start: real, step: real, r: Run, off: real)
    requires step > 0.0 && r.lo <= r.hi < |r.signed| && Mass(r.signed, r.lo, r.hi + 1) > 0.0
    requires StepMoment(r.signed, Middle(r.lo, r.hi) + off, r.lo, r.hi + 1) <= 0.0
    requires StepMoment(r.signed, Middle(r.lo, r.hi) - off, r.lo, r.hi + 1) >= 0.0
    ensures var x := EvenScan(start, step, |r.signed|);
            var mean := WeightedMean(x, r.signed, r.lo, r.hi + 1);
            var middle := (x[r.lo] + x[r.hi]) / 2.0;
            middle - Torque(step, off) <= mean <= middle + Torque(step, off)
  {
    var x := EvenScan(start, step, |r.signed|);
    var mid := Middle(r.lo, r.hi);
    MeanBeside(start, step, r.signed, mid + off, r.lo, r.hi + 1);
    MeanBeside(start, step, r.signed, mid - off, r.lo, r.hi + 1);
    AlongRises(start, step, mid, mid + off);
    AlongRises(start, step, mid - off, mid);
    AlongRises(start, step, r.lo as real, mid);
    AlongRises(start, step, mid, r.hi as real);
    assert Torque(step, mid - r.lo as real) == Torque(step, r.hi as real - mid);
  }

  lemma SixthOfWidth(start: real, step: real, lo: nat, hi: nat)
    requires lo <= hi && step > 0.0
    ensures Torque(step, (hi - lo) as real / 6.0) == (Along(start, step, hi as real) - Along(start, step, lo as real)) / 6.0
  {
    AlongRises(start, step, lo as real, hi as real);
    assert Torque(step, (hi - lo) as real / 6.0) * 6.0 == Torque(step, (hi - lo) as real);
  }

  /** The fitted centre of an even scan lies within a sixth of the run's width of the run's midpoint. */
  lemma CenterWithinSixthOfWidth(start: real, step: real, readings: seq<real>, minContrast: real, given: Option<real>)
    requires step > 0.0
    requires FitOf(EvenScan(start, step, |readings|), readings, minContrast, given).Ok?
    ensures var x := EvenScan(start, step, |readings|);
            var fit := FitOf(x, readings, minContrast, given).value;
            var middle := (RunStart(x, readings, fit) + RunEnd(x, readings, fit)) / 2.0;
            middle - fit.width / 6.0 <= fit.center <= middle + fit.width / 6.0
  {
    var r := RunOf(Deviations(readings, Baseline(readings, given)));
    AcceptedWeights(Deviations(readings, Baseline(readings, given)));
    PullWithinSixth(r.signed, r.contrast, r.lo, r.hi);
    CenterBetween(start, step, r, (r.hi - r.lo) as real / 6.0);
    SixthOfWidth(start, step, r.lo, r.hi);
  }

  /** When the run spans at most 22 steps, the centre lies within two steps of its midpoint. */
  lemma CenterWithinTwoSteps(start: real, step: real, readings: seq<real>, minContrast: real, given: Option<real>)
    requires step > 0.0
    requires FitOf(EvenScan(start, step, |readings|), readings, minContrast, given).Ok?
    requires FitOf(EvenScan(start, step, |readings|), readings, minContrast, given).value.nPoints <= 23
    ensures var x := EvenScan(start, step, |readings|);
            var fit := FitOf(x, readings, minContrast, given).value;
            var middle := (RunStart(x, readings, fit) + RunEnd(x, readings, fit)) / 2.0;
            middle - 2.0 * step <= fit.center <= middle + 2.0 * step
  {
    var r := RunOf(Deviations(readings, Baseline(readings, given)));
    AcceptedWeights(Deviations(readings, Baseline(readings, given)));
    TwoStepsHold(r.hi - r.lo);
    PullIsBounded(r.signed, r.contrast, r.lo, r.hi, 2.0);
    CenterBetween(start, step, r, 2.0);
  }
}
