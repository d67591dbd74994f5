/** Locating the mask's slit in a sweep of marker readings
    (src/lumi/experiment/mask_align.py). Readings and positions are reals. */
module SlitFitting {
  import opened Common
  import opened Median

  datatype SlitFit = SlitFit(
    center: real, contrast: real, baseline: real, polarity: int, nPoints: nat, width: real)

  /** The three ways the fit refuses: bad input shape, too little contrast, or a run that touches the window's edge. */
  datatype Refusal = BadShape | TooFlat | OffTheEdge

  type Outcome = Result<SlitFit, Refusal>

  // ----- the pieces of the fit -------------------------------------------------

  function Deviations(readings: seq<real>, baseline: real): (dev: seq<real>)
    ensures |dev| == |readings|
  {
    seq(|readings|, i requires 0 <= i < |readings| => readings[i] - baseline)
  }

  /** The deviations times the polarity, so that the slit always reads positive. */
  function Signed(dev: seq<real>, polarity: int): (s: seq<real>)
    ensures |s| == |dev|
  {
    seq(|dev|, i requires 0 <= i < |dev| => if polarity == 1 then dev[i] else -dev[i])
  }

  ghost predicate IsPeak(dev: seq<real>, k: nat) {
    && k < |dev|
    && (forall j :: 0 <= j < |dev| ==> Abs(dev[j]) <= Abs(dev[k]))
    && (forall j :: 0 <= j < k ==> Abs(dev[j]) < Abs(dev[k]))
  }

  /** The first index of the largest deviation, as numpy's `argmax` picks it. */
  function PeakIndex(dev: seq<real>): (k: nat)
    requires |dev| > 0
    ensures k < |dev|
  {
    if |dev| == 1 then 0
    else
      var last := |dev| - 1;
      var k := PeakIndex(dev[..last]);
      if Abs(dev[last]) > Abs(dev[k]) then last else k
  }

  lemma {:induction false} PeakIndexIsPeak(dev: seq<real>)
    requires |dev| > 0
    ensures IsPeak(dev, PeakIndex(dev))
  {
    if |dev| > 1 {
      PeakIndexIsPeak(dev[..|dev| - 1]);
      assert forall j :: 0 <= j < |dev| - 1 ==> dev[..|dev| - 1][j] == dev[j];
    }
  }

  function RunLo(signed: seq<real>, from: nat, half: real): (lo: nat)
    requires from < |signed|
    ensures lo <= from
  {
    if from > 0 && signed[from - 1] >= half then RunLo(signed, from - 1, half) else from
  }

  function RunHi(signed: seq<real>, from: nat, half: real): (hi: nat)
    requires from < |signed|
    ensures from <= hi < |signed|
    decreases |signed| - from
  {
    if from < |signed| - 1 && signed[from + 1] >= half then RunHi(signed, from + 1, half) else from
  }

  lemma {:induction false} RunLoIsMaximal(signed: seq<real>, from: nat, half: real)
    requires from < |signed|
    ensures var lo := RunLo(signed, from, half);
            && (forall i :: lo <= i < from ==> signed[i] >= half)
            && (lo > 0 ==> signed[lo - 1] < half)
  {
    if from > 0 && signed[from - 1] >= half { RunLoIsMaximal(signed, from - 1, half); }
  }

  lemma {:induction false} RunHiIsMaximal(signed: seq<real>, from: nat, half: real)
    requires from < |signed|
    ensures var hi := RunHi(signed, from, half);
            && (forall i :: from < i <= hi ==> signed[i] >= half)
            && (hi < |signed| - 1 ==> signed[hi + 1] < half)
    decreases |signed| - from
  {
    if from < |signed| - 1 && signed[from + 1] >= half { RunHiIsMaximal(signed, from + 1, half); }
  }

  /** Sum of the weights over `lo <= i < hi`. */
  function Mass(w: seq<real>, lo: nat, hi: nat): real
    requires lo <= hi <= |w|
  {
    if lo == hi then 0.0 else Mass(w, lo, hi - 1) + w[hi - 1]
  }

  /** Sum of `(x[i] - about) * w[i]` over `lo <= i < hi`. */
  function Moment(x: seq<real>, w: seq<real>, about: real, lo: nat, hi: nat): real
    requires lo <= hi <= |w| && |x| == |w|
  {
    if lo == hi then 0.0 else Moment(x, w, about, lo, hi - 1) + (x[hi - 1] - about) * w[hi - 1]
  }

  // ----- the fit -----------------------------------------------------------------

  /** Where the fit found its run: the polarity-corrected deviations, the peak and the run's ends. */
  datatype Run = Run(signed: seq<real>, peak: nat, contrast: real, polarity: int, lo: nat, hi: nat)

  function RunAround(signed: seq<real>, peak: nat, contrast: real, polarity: int): (r: Run)
    requires peak < |signed|
    ensures r.signed == signed && r.lo <= peak <= r.hi < |signed|
  {
    Run(signed, peak, contrast, polarity, RunLo(signed, peak, contrast / 2.0), RunHi(signed, peak, contrast / 2.0))
  }

  function PolarityOf(deviation: real): int {
    if deviation > 0.0 then 1 else -1
  }

  function RunOf(dev: seq<real>): (r: Run)
    requires |dev| > 0
    ensures |r.signed| == |dev| && r.lo <= r.peak <= r.hi < |dev|
  {
    var peak := PeakIndex(dev);
    var polarity := PolarityOf(dev[peak]);
    RunAround(Signed(dev, polarity), peak, Abs(dev[peak]), polarity)
  }

  function Baseline(readings: seq<real>, given: Option<real>): real
    requires |readings| > 0
  {
    match given
    case None => MedianOf(readings)
    case Some(b) => b
  }

  /** `lo..hi` is the maximal contiguous run around the peak at or past half contrast. */
  ghost predicate MaximalRun(signed: seq<real>, contrast: real, peak: nat, lo: nat, hi: nat) {
    && lo <= peak <= hi < |signed|
    && (forall i :: lo <= i <= hi ==> signed[i] >= contrast / 2.0)
    && (lo > 0 ==> signed[lo - 1] < contrast / 2.0)
    && (hi < |signed| - 1 ==> signed[hi + 1] < contrast / 2.0)
  }

  lemma RunPeaks(dev: seq<real>)
    requires |dev| > 0
    ensures var r := RunOf(dev);
            && IsPeak(dev, r.peak)
            && r.contrast >= 0.0
            && r.signed[r.peak] == r.contrast
            && forall i :: 0 <= i < |dev| ==> r.signed[i] <= r.contrast
  {
    var r := RunOf(dev);
    PeakIndexIsPeak(dev);
    forall i | 0 <= i < |dev| ensures r.signed[i] <= r.contrast {
      assert Abs(dev[i]) <= Abs(dev[r.peak]);
    }
  }

  lemma RunIsMaximal(dev: seq<real>)
    requires |dev| > 0
    ensures var r := RunOf(dev); MaximalRun(r.signed, r.contrast, r.peak, r.lo, r.hi)
  {
    var r := RunOf(dev);
    RunPeaks(dev);
    RunLoIsMaximal(r.signed, r.peak, r.contrast / 2.0);
    RunHiIsMaximal(r.signed, r.peak, r.contrast / 2.0);
  }

  /** A trace with no deviation at all is one run from edge to edge. */
  lemma FlatRunTouchesEdges(dev: seq<real>)
    requires |dev| > 0 && RunOf(dev).contrast == 0.0
    ensures RunOf(dev).lo == 0 && RunOf(dev).hi == |dev| - 1
  {
    var r := RunOf(dev);
    RunPeaks(dev);
    RunIsMaximal(dev);
    forall i | 0 <= i < |dev| ensures r.signed[i] == 0.0 {
      assert Abs(dev[i]) <= Abs(dev[r.peak]);
    }
  }

  lemma MassPositive(w: seq<real>, lo: nat, hi: nat, floor: real)
    requires lo < hi <= |w| && floor > 0.0
    requires forall i :: lo <= i < hi ==> w[i] >= floor
    ensures Mass(w, lo, hi) >= floor
  {
    if hi > lo + 1 { MassPositive(w, lo, hi - 1, floor); }
  }

  /** The weights of an accepted run are all positive, so the centre is never a division by zero. */
  lemma AcceptedRunHasMass(dev: seq<real>)
    requires |dev| > 0
    requires var r := RunOf(dev); r.lo > 0 && r.hi < |dev| - 1
    ensures var r := RunOf(dev); r.contrast > 0.0 && Mass(r.signed, r.lo, r.hi + 1) > 0.0
  {
    var r := RunOf(dev);
    RunPeaks(dev);
    RunIsMaximal(dev);
    if r.contrast == 0.0 { FlatRunTouchesEdges(dev); }
    MassPositive(r.signed, r.lo, r.hi + 1, r.contrast / 2.0);
  }

  /** The weighted mean position of a run, with the figures the fit reports beside it. */
  function FitOver(positions: seq<real>, r: Run, baseline: real): SlitFit
    requires |positions| == |r.signed| && r.lo <= r.hi < |positions|
    requires Mass(r.signed, r.lo, r.hi + 1) > 0.0
  {
    SlitFit(WeightedMean(positions, r.signed, r.lo, r.hi + 1),
      r.contrast, baseline, r.polarity, r.hi - r.lo + 1, positions[r.hi] - positions[r.lo])
  }

  function WeightedMean(x: seq<real>, w: seq<real>, lo: nat, hi: nat): real
    requires lo <= hi <= |w| && |x| == |w| && Mass(w, lo, hi) > 0.0
  {
    Moment(x, w, 0.0, lo, hi) / Mass(w, lo, hi)
  }

  ghost predicate Averageable(r: Run) {
    && r.lo <= r.hi < |r.signed|
    && (r.lo > 0 && r.hi < |r.signed| - 1 ==> Mass(r.signed, r.lo, r.hi + 1) > 0.0)
  }

  /** Accept or refuse a run: enough contrast, and clear of both ends of the window. */
  function Judge(positions: seq<real>, r: Run, baseline: real, minContrast: real): Outcome
    requires |positions| == |r.signed| && Averageable(r)
  {
    if r.contrast < minContrast then Err(TooFlat)
    else if r.lo == 0 || r.hi == |positions| - 1 then Err(OffTheEdge)
    else Ok(FitOver(positions, r, baseline))
  }

  lemma RunIsAverageable(dev: seq<real>)
    requires |dev| > 0
    ensures Averageable(RunOf(dev))
  {
    if RunOf(dev).lo > 0 && RunOf(dev).hi < |dev| - 1 { AcceptedRunHasMass(dev); }
  }

  /** The specification of `LocateSlit`: the same decisions, as one expression. */
  function FitOf(positions: seq<real>, readings: seq<real>, minContrast: real, given: Option<real>): Outcome {
    if |positions| != |readings| || |positions| < 3 then Err(BadShape)
    else
      var baseline := Baseline(readings, given);
      RunIsAverageable(Deviations(readings, baseline));
      Judge(positions, RunOf(Deviations(readings, baseline)), baseline, minContrast)
  }

  /** The run grown outwards from the peak by two loops. */
  method GrowRun(signed: seq<real>, peak: nat, half: real) returns (lo: nat, hi: nat)
    requires peak < |signed|
    ensures lo == RunLo(signed, peak, half) && hi == RunHi(signed, peak, half)
  {
    lo, hi := peak, peak;
    while lo > 0 && signed[lo - 1] >= half
      invariant lo <= peak
      invariant RunLo(signed, lo, half) == RunLo(signed, peak, half)
    {
      lo := lo - 1;
    }
    while hi < |signed| - 1 && signed[hi + 1] >= half
      invariant peak <= hi < |signed|
      invariant RunHi(signed, hi, half) == RunHi(signed, peak, half)
    {
      hi := hi + 1;
    }
  }

  method LocateSlit(positions: seq<real>, readings: seq<real>, minContrast: real, given: Option<real>)
    returns (out: Outcome)
    ensures out == FitOf(positions, readings, minContrast, given)
  {
    if |positions| != |readings| || |positions| < 3 {
      return Err(BadShape);
    }
    var baseline := Baseline(readings, given);
    var dev := Deviations(readings, baseline);
    var peak := PeakIndex(dev);
    var contrast := Abs(dev[peak]);
    if contrast < minContrast {
      return Err(TooFlat);
    }
    var polarity := PolarityOf(dev[peak]);
    var signed := Signed(dev, polarity);

    var lo, hi := GrowRun(signed, peak, contrast / 2.0);
    assert Run(signed, peak, contrast, polarity, lo, hi) == RunOf(dev);
    if lo == 0 || hi == |positions| - 1 {
      return Err(OffTheEdge);
    }
    AcceptedRunHasMass(dev);
    return Ok(FitOver(positions, Run(signed, peak, contrast, polarity, lo, hi), baseline));
  }

  // ----- what an accepted fit means ---------------------------------------------------

  ghost predicate Ascending(x: seq<real>) {
    forall i, j :: 0 <= i < j < |x| ==> x[i] < x[j]
  }

  lemma MomentShift(x: seq<real>, w: seq<real>, about: real, lo: nat, hi: nat)
    requires lo <= hi <= |w| && |x| == |w|
    ensures Moment(x, w, about, lo, hi) == Moment(x, w, 0.0, lo, hi) - about * Mass(w, lo, hi)
  {
    if lo < hi { MomentShift(x, w, about, lo, hi - 1); }
  }

  lemma ProductSign(a: real, b: real)
    requires b >= 0.0
    ensures a >= 0.0 ==> a * b >= 0.0
    ensures a <= 0.0 ==> a * b <= 0.0
  {
  }

  lemma MomentSign(x: seq<real>, w: seq<real>, about: real, lo: nat, hi: nat)
    requires lo <= hi <= |w| && |x| == |w|
    requires forall i :: lo <= i < hi ==> w[i] >= 0.0
    ensures (forall i :: lo <= i < hi ==> x[i] >= about) ==> Moment(x, w, about, lo, hi) >= 0.0
    ensures (forall i :: lo <= i < hi ==> x[i] <= about) ==> Moment(x, w, about, lo, hi) <= 0.0
  {
    if lo < hi {
      MomentSign(x, w, about, lo, hi - 1);
      ProductSign(x[hi - 1] - about, w[hi - 1]);
    }
  }

  lemma SignOfFactor(a: real, m: real)
    requires m > 0.0
    ensures a * m >= 0.0 <==> a >= 0.0
    ensures a * m <= 0.0 <==> a <= 0.0
  {
  }

  lemma CenterAgainst(moment0: real, mass: real, about: real, moment: real)
    requires mass > 0.0 && moment == moment0 - about * mass
    ensures moment >= 0.0 ==> moment0 / mass >= about
    ensures moment <= 0.0 ==> moment0 / mass <= about
    ensures (moment0 / mass - about) * mass == moment
  {
    var q := moment0 / mass;
    assert q * mass == moment0;
    assert (q - about) * mass == moment;
    assert moment >= 0.0 ==> q - about >= 0.0 by { SignOfFactor(q - about, mass); }
    assert moment <= 0.0 ==> q - about <= 0.0 by { SignOfFactor(q - about, mass); }
  }

  /** On which side of a point the weighted mean lies. */
  lemma MeanAgainst(x: seq<real>, w: seq<real>, about: real, lo: nat, hi: nat)
    requires lo <= hi <= |w| && |x| == |w| && Mass(w, lo, hi) > 0.0
    ensures Moment(x, w, about, lo, hi) >= 0.0 ==> WeightedMean(x, w, lo, hi) >= about
    ensures Moment(x, w, about, lo, hi) <= 0.0 ==> WeightedMean(x, w, lo, hi) <= about
  {
    MomentShift(x, w, about, lo, hi);
    CenterAgainst(Moment(x, w, 0.0, lo, hi), Mass(w, lo, hi), about, Moment(x, w, about, lo, hi));
  }

  /** A weighted mean of ascending positions lies between the first and the last of them. */
  lemma MeanInHull(x: seq<real>, w: seq<real>, lo: nat, hi: nat)
    requires lo < hi <= |w| && |x| == |w| && Ascending(x) && Mass(w, lo, hi) > 0.0
    requires forall i :: lo <= i < hi ==> w[i] >= 0.0
    ensures x[lo] <= WeightedMean(x, w, lo, hi) <= x[hi - 1]
  {
    var first, last := x[lo], x[hi - 1];
    MomentSign(x, w, first, lo, hi);
    MeanAgainst(x, w, first, lo, hi);
    MomentSign(x, w, last, lo, hi);
    MeanAgainst(x, w, last, lo, hi);
  }

  /** A successful fit averages the maximal half-height run around the peak, and its centre lies
      within that run and strictly inside the swept window. */
  lemma FitIsTheMaximalRun(positions: seq<real>, readings: seq<real>, minContrast: real, given: Option<real>)
    requires Ascending(positions)
    requires FitOf(positions, readings, minContrast, given).Ok?
    ensures var fit := FitOf(positions, readings, minContrast, given).value;
            var r := RunOf(Deviations(readings, fit.baseline));
            && fit.baseline == Baseline(readings, given)
            && fit.contrast == r.contrast >= minContrast
            && MaximalRun(r.signed, r.contrast, r.peak, r.lo, r.hi)
            && fit.nPoints == r.hi - r.lo + 1 && fit.width == positions[r.hi] - positions[r.lo]
            && 0 < r.lo && r.hi < |positions| - 1
            && positions[0] < positions[r.lo] <= fit.center <= positions[r.hi] < positions[|positions| - 1]
  {
    var r := RunOf(Deviations(readings, Baseline(readings, given)));
    RunPeaks(Deviations(readings, Baseline(readings, given)));
    RunIsMaximal(Deviations(readings, Baseline(readings, given)));
    AcceptedRunHasMass(Deviations(readings, Baseline(readings, given)));
    MeanInHull(positions, r.signed, r.lo, r.hi + 1);
  }

  // ----- what the fit means, in the readings' own terms ---------------------------------------------

  /** The peak, the run around it and its figures, said of the readings themselves. */
  ghost predicate IsRunOf(readings: seq<real>, baseline: real, r: Run) {
    && r.lo <= r.peak <= r.hi < |readings|
    && (forall j :: 0 <= j < |readings| ==> Height(readings, baseline, j) <= Height(readings, baseline, r.peak))
    && (forall j :: 0 <= j < r.peak ==> Height(readings, baseline, j) < Height(readings, baseline, r.peak))
    && r.polarity == (if readings[r.peak] > baseline then 1 else -1)
    && r.contrast == Height(readings, baseline, r.peak)
    && (forall i :: r.lo <= i <= r.hi ==> Leans(readings, baseline, r.polarity, i) >= r.contrast / 2.0)
    && (r.lo > 0 ==> Leans(readings, baseline, r.polarity, r.lo - 1) < r.contrast / 2.0)
    && (r.hi < |readings| - 1 ==> Leans(readings, baseline, r.polarity, r.hi + 1) < r.contrast / 2.0)
  }

  /** How far a reading is from the baseline. */
  function Height(readings: seq<real>, baseline: real, i: nat): real
    requires i < |readings|
  {
    if readings[i] >= baseline then readings[i] - baseline else baseline - readings[i]
  }

  /** How far it is on the side of the slit. */
  function Leans(readings: seq<real>, baseline: real, polarity: int, i: nat): real
    requires i < |readings|
  {
    if polarity == 1 then readings[i] - baseline else baseline - readings[i]
  }

  /** Sum of `(x[i] - about) * (readings[i] - baseline)` over `lo <= i < hi`. */
  ghost function Pull(x: seq<real>, readings: seq<real>, baseline: real, about: real, lo: nat, hi: nat): real
    requires lo <= hi <= |readings| && |x| == |readings|
  {
    if lo == hi then 0.0
    else Pull(x, readings, baseline, about, lo, hi - 1) + (x[hi - 1] - about) * (readings[hi - 1] - baseline)
  }

  /** The deviations from `lo` to `hi` balance about a point. */
  ghost predicate BalancesAt(x: seq<real>, readings: seq<real>, baseline: real, lo: nat, hi: nat, about: real)
    requires lo <= hi < |readings| && |x| == |readings|
  {
    Pull(x, readings, baseline, about, lo, hi + 1) == 0.0
  }

  lemma RunMeans(readings: seq<real>, baseline: real)
    requires |readings| > 0
    ensures IsRunOf(readings, baseline, RunOf(Deviations(readings, baseline)))
  {
    var dev := Deviations(readings, baseline);
    var r := RunOf(dev);
    RunPeaks(dev);
    RunIsMaximal(dev);
    forall j | 0 <= j < |readings|
      ensures Abs(dev[j]) == Height(readings, baseline, j) && r.signed[j] == Leans(readings, baseline, r.polarity, j)
    {
    }
  }

  lemma OneMorePull(x: real, about: real, deviation: real, polarity: int)
    requires polarity == 1 || polarity == -1
    ensures (x - about) * (if polarity == 1 then deviation else -deviation) == polarity as real * ((x - about) * deviation)
  {
  }

  lemma {:induction false} MomentIsPull(x: seq<real>, readings: seq<real>, baseline: real, polarity: int, about: real, lo: nat, hi: nat)
    requires lo <= hi <= |readings| && |x| == |readings| && (polarity == 1 || polarity == -1)
    ensures Moment(x, Signed(Deviations(readings, baseline), polarity), about, lo, hi) ==
            polarity as real * Pull(x, readings, baseline, about, lo, hi)
  {
    if lo < hi {
      MomentIsPull(x, readings, baseline, polarity, about, lo, hi - 1);
      OneMorePull(x[hi - 1], about, readings[hi - 1] - baseline, polarity);
    }
  }

  /** A run with mass balances about its weighted mean and about no other point. */
  lemma BalancesExactly(x: seq<real>, w: seq<real>, about: real, lo: nat, hi: nat)
    requires lo <= hi <= |w| && |x| == |w| && Mass(w, lo, hi) > 0.0
    ensures Moment(x, w, about, lo, hi) == 0.0 <==> about == WeightedMean(x, w, lo, hi)
  {
    var m0, mass := Moment(x, w, 0.0, lo, hi), Mass(w, lo, hi);
    MomentShift(x, w, about, lo, hi);
    CenterAgainst(m0, mass, about, Moment(x, w, about, lo, hi));
    ZeroProduct(m0 / mass - about, mass);
  }

  lemma ZeroProduct(a: real, m: real)
    requires m > 0.0
    ensures a * m == 0.0 <==> a == 0.0
  {
  }

  lemma PolarityDropsOut(polarity: int, pull: real)
    requires polarity == 1 || polarity == -1
    ensures polarity as real * pull == 0.0 <==> pull == 0.0
  {
  }

  /** What a run and its fit say of each other: its own figures, and its centre is the one point about which the
      deviations of the run balance. */
  ghost predicate IsFitOf(positions: seq<real>, readings: seq<real>, baseline: real, r: Run, fit: SlitFit)
    requires |positions| == |readings| && r.lo <= r.hi < |readings|
  {
    && fit.baseline == baseline && fit.contrast == r.contrast && fit.polarity == r.polarity
    && fit.nPoints == r.hi - r.lo + 1 && fit.width == positions[r.hi] - positions[r.lo]
    && forall about :: BalancesAt(positions, readings, baseline, r.lo, r.hi, about) <==> about == fit.center
  }

  lemma AcceptedFitMeans(positions: seq<real>, readings: seq<real>, baseline: real)
    requires |positions| == |readings| > 0
    requires var r := RunOf(Deviations(readings, baseline)); r.lo > 0 && r.hi < |readings| - 1
    ensures var r := RunOf(Deviations(readings, baseline));
            Mass(r.signed, r.lo, r.hi + 1) > 0.0 && IsFitOf(positions, readings, baseline, r, FitOver(positions, r, baseline))
  {
    var r := RunOf(Deviations(readings, baseline));
    AcceptedRunHasMass(Deviations(readings, baseline));
    forall about
      ensures BalancesAt(positions, readings, baseline, r.lo, r.hi, about) <==> about == FitOver(positions, r, baseline).center
    {
      BalancesExactly(positions, r.signed, about, r.lo, r.hi + 1);
      MomentIsPull(positions, readings, baseline, r.polarity, about, r.lo, r.hi + 1);
      PolarityDropsOut(r.polarity, Pull(positions, readings, baseline, about, r.lo, r.hi + 1));
    }
  }

  /** The whole of a fit, in terms of the readings: the shapes it refuses; the one run around the first point furthest
      from the baseline; the contrasts and the ends it refuses, in that order; and what it reports of any other run. */
  lemma FitExactly(positions: seq<real>, readings: seq<real>, minContrast: real, given: Option<real>)
    ensures var out := FitOf(positions, readings, minContrast, given);
            if |positions| != |readings| || |positions| < 3 then out == Err(BadShape)
            else
              var baseline := if given.Some? then given.value else MedianOf(readings);
              exists r :: IsRunOf(readings, baseline, r)
                       && if r.contrast < minContrast then out == Err(TooFlat)
                          else if r.lo == 0 || r.hi == |readings| - 1 then out == Err(OffTheEdge)
                          else out.Ok? && IsFitOf(positions, readings, baseline, r, out.value)
  {
    if |positions| == |readings| && |positions| >= 3 {
      var baseline := if given.Some? then given.value else MedianOf(readings);
      var r := RunOf(Deviations(readings, baseline));
      RunMeans(readings, baseline);
      if r.lo > 0 && r.hi < |readings| - 1 { AcceptedFitMeans(positions, readings, baseline); }
      assert IsRunOf(readings, baseline, r);
    }
  }

  /** There is only one such run. */
  lemma RunIsUnique(readings: seq<real>, baseline: real, r: Run, r': Run)
    requires IsRunOf(readings, baseline, r) && IsRunOf(readings, baseline, r')
    ensures r'.peak == r.peak && r'.polarity == r.polarity && r'.contrast == r.contrast && r'.lo == r.lo && r'.hi == r.hi
  {
    assert Height(readings, baseline, r.peak) <= Height(readings, baseline, r'.peak);
  }
}
