/** How the slit fit answers to a moved scale, an amplified trace and an inverted one
    (src/lumi/experiment/mask_align.py). */
module SlitSymmetry {
  import opened Common
  import opened Median
  import opened SlitFitting

  // ----- moving the positions ---------------------------------------------------

  function Shifted(x: seq<real>, d: real): (r: seq<real>)
    ensures |r| == |x|
  {
    seq(|x|, i requires 0 <= i < |x| => x[i] + d)
  }

  lemma {:induction false} MomentOfShifted(x: seq<real>, w: seq<real>, d: real, lo: nat, hi: nat)
    requires lo <= hi <= |w| && |x| == |w|
    ensures Moment(Shifted(x, d), w, 0.0, lo, hi) == Moment(x, w, 0.0, lo, hi) + d * Mass(w, lo, hi)
  {
    if lo < hi { MomentOfShifted(x, w, d, lo, hi - 1); }
  }

  lemma QuotientPlus(m: real, d: real, mass: real)
    requires mass > 0.0
    ensures (m + d * mass) / mass == m / mass + d
  {
  }

  lemma MeanOfShifted(x: seq<real>, r: Run, baseline: real, d: real)
    requires |x| == |r.signed| && r.lo <= r.hi < |x| && Mass(r.signed, r.lo, r.hi + 1) > 0.0
    ensures var fit := FitOver(x, r, baseline);
            FitOver(Shifted(x, d), r, baseline) == fit.(center := fit.center + d)
  {
    MomentOfShifted(x, r.signed, d, r.lo, r.hi + 1);
    QuotientPlus(Moment(x, r.signed, 0.0, r.lo, r.hi + 1), d, Mass(r.signed, r.lo, r.hi + 1));
  }

  /** The centre moves exactly with the positions; nothing else about the outcome changes. */
  lemma CenterMovesWithPositions(positions: seq<real>, readings: seq<real>, minContrast: real,
                                 given: Option<real>, d: real)
    ensures FitOf(Shifted(positions, d), readings, minContrast, given) ==
            match FitOf(positions, readings, minContrast, given)
            case Ok(fit) => Ok(fit.(center := fit.center + d))
            case Err(e) => Err(e)
  {
    if FitOf(positions, readings, minContrast, given).Ok? {
      var baseline := Baseline(readings, given);
      AcceptedRunHasMass(Deviations(readings, baseline));
      MeanOfShifted(positions, RunOf(Deviations(readings, baseline)), baseline, d);
    }
  }

  // ----- amplifying the deviations ----------------------------------------------------

  function Gain(g: real, x: real): real {
    g * x
  }

  function Times(x: seq<real>, g: real): (r: seq<real>)
    ensures |r| == |x|
  {
    seq(|x|, i requires 0 <= i < |x| => Gain(g, x[i]))
  }

  lemma PeakIsUnique(dev: seq<real>, j: nat, k: nat)
    requires IsPeak(dev, j) && IsPeak(dev, k)
    ensures j == k
  {
    assert Abs(dev[j]) <= Abs(dev[k]) <= Abs(dev[j]);
  }

  lemma GainKeepsOrder(a: real, b: real, g: real)
    requires g > 0.0
    ensures Gain(g, a) <= Gain(g, b) <==> a <= b
    ensures Gain(g, a) < Gain(g, b) <==> a < b
  {
    assert g * b - g * a == g * (b - a);
  }

  lemma GainOfAbs(a: real, g: real)
    requires g > 0.0
    ensures Abs(Gain(g, a)) == Gain(g, Abs(a))
    ensures Gain(g, a) > 0.0 <==> a > 0.0
  {
    assert g * -a == -(g * a);
  }

  lemma MagnitudesCompareAlike(a: real, b: real, g: real, ga: real, gb: real)
    requires g > 0.0 && ga == Gain(g, a) && gb == Gain(g, b)
    ensures Abs(ga) <= Abs(gb) <==> Abs(a) <= Abs(b)
  {
    GainOfAbs(a, g);
    GainOfAbs(b, g);
    var x, y := Abs(a), Abs(b);
    GainKeepsOrder(x, y, g);
    assert Abs(ga) == Gain(g, x) && Abs(gb) == Gain(g, y);
  }

  /** Two sequences of deviations whose magnitudes compare alike. */
  ghost predicate SameOrder(s: seq<real>, t: seq<real>) {
    && |s| == |t|
    && forall i, j :: 0 <= i < |s| && 0 <= j < |s| ==> (Abs(t[i]) <= Abs(t[j]) <==> Abs(s[i]) <= Abs(s[j]))
  }

  lemma SameOrderSamePeak(s: seq<real>, t: seq<real>)
    requires |s| > 0 && SameOrder(s, t)
    ensures PeakIndex(t) == PeakIndex(s)
  {
    var k := PeakIndex(s);
    PeakIndexIsPeak(s);
    PeakIndexIsPeak(t);
    assert IsPeak(t, k);
    PeakIsUnique(t, k, PeakIndex(t));
  }

  /** Two traces that cross their half heights at the same indices. */
  ghost predicate SameCrossings(s: seq<real>, half: real, t: seq<real>, half': real) {
    && |s| == |t|
    && forall i :: 0 <= i < |s| ==> (t[i] >= half' <==> s[i] >= half)
  }

  lemma {:induction false} SameCrossingsSameLo(s: seq<real>, half: real, t: seq<real>, half': real, from: nat)
    requires from < |s| && SameCrossings(s, half, t, half')
    ensures RunLo(t, from, half') == RunLo(s, from, half)
  {
    if from > 0 { SameCrossingsSameLo(s, half, t, half', from - 1); }
  }

  lemma {:induction false} SameCrossingsSameHi(s: seq<real>, half: real, t: seq<real>, half': real, from: nat)
    requires from < |s| && SameCrossings(s, half, t, half')
    ensures RunHi(t, from, half') == RunHi(s, from, half)
    decreases |s| - from
  {
    if from < |s| - 1 { SameCrossingsSameHi(s, half, t, half', from + 1); }
  }

  lemma TimesKeepsOrder(dev: seq<real>, g: real)
    requires g > 0.0
    ensures SameOrder(dev, Times(dev, g))
  {
    var t := Times(dev, g);
    forall i, j | 0 <= i < |dev| && 0 <= j < |dev|
      ensures Abs(t[i]) <= Abs(t[j]) <==> Abs(dev[i]) <= Abs(dev[j])
    {
      MagnitudesCompareAlike(dev[i], dev[j], g, t[i], t[j]);
    }
  }

  lemma GainKeepsPeak(dev: seq<real>, g: real)
    requires |dev| > 0 && g > 0.0
    ensures PeakIndex(Times(dev, g)) == PeakIndex(dev)
  {
    TimesKeepsOrder(dev, g);
    SameOrderSamePeak(dev, Times(dev, g));
  }

  lemma TimesKeepsCrossings(s: seq<real>, half: real, g: real, t: seq<real>, half': real)
    requires g > 0.0 && t == Times(s, g) && half' == Gain(g, half)
    ensures SameCrossings(s, half, t, half')
  {
    forall i | 0 <= i < |s| ensures t[i] >= half' <==> s[i] >= half {
      GainKeepsOrder(half, s[i], g);
    }
  }

  lemma {:induction false} GainScalesSums(x: seq<real>, w: seq<real>, g: real, lo: nat, hi: nat)
    requires lo <= hi <= |w| && |x| == |w|
    ensures Mass(Times(w, g), lo, hi) == Gain(g, Mass(w, lo, hi))
    ensures Moment(x, Times(w, g), 0.0, lo, hi) == Gain(g, Moment(x, w, 0.0, lo, hi))
  {
    if lo < hi {
      GainScalesSums(x, w, g, lo, hi - 1);
      assert (x[hi - 1] - 0.0) * (g * w[hi - 1]) == g * ((x[hi - 1] - 0.0) * w[hi - 1]);
    }
  }

  lemma QuotientOfScaled(m: real, mass: real, g: real)
    requires mass > 0.0 && g > 0.0
    ensures Gain(g, mass) > 0.0 && Gain(g, m) / Gain(g, mass) == m / mass
  {
    var q := m / mass;
    assert q * mass == m;
    assert q * (g * mass) == g * (q * mass);
  }

  /** Traces that cross their half heights together have the same run around the same peak. */
  lemma SameRun(s: seq<real>, c: real, t: seq<real>, c': real, peak: nat, polarity: int)
    requires peak < |s| && SameCrossings(s, c / 2.0, t, c' / 2.0)
    ensures RunAround(t, peak, c', polarity) == RunAround(s, peak, c, polarity).(signed := t, contrast := c')
  {
    SameCrossingsSameLo(s, c / 2.0, t, c' / 2.0, peak);
    SameCrossingsSameHi(s, c / 2.0, t, c' / 2.0, peak);
  }

  lemma SignedTimes(dev: seq<real>, polarity: int, g: real)
    ensures Signed(Times(dev, g), polarity) == Times(Signed(dev, polarity), g)
  {
    var s, t := Signed(Times(dev, g), polarity), Times(Signed(dev, polarity), g);
    forall i | 0 <= i < |dev| ensures s[i] == t[i] {
      assert Gain(g, -dev[i]) == -Gain(g, dev[i]);
    }
  }

  lemma HalfOfGain(a: real, g: real, ga: real)
    requires g > 0.0 && ga == Gain(g, a)
    ensures Abs(ga) == Gain(g, Abs(a)) && Abs(ga) / 2.0 == Gain(g, Abs(a) / 2.0) && (ga > 0.0 <==> a > 0.0)
  {
    GainOfAbs(a, g);
  }

  lemma GainScalesRun(dev: seq<real>, g: real)
    requires |dev| > 0 && g > 0.0
    ensures var r := RunOf(dev);
            RunOf(Times(dev, g)) == r.(signed := Times(r.signed, g), contrast := Abs(Times(dev, g)[r.peak]))
  {
    var t, k := Times(dev, g), PeakIndex(dev);
    var p := PolarityOf(dev[k]);
    GainKeepsPeak(dev, g);
    SignedTimes(dev, p, g);
    HalfOfGain(dev[k], g, t[k]);
    TimesKeepsCrossings(Signed(dev, p), Abs(dev[k]) / 2.0, g, Signed(t, p), Abs(t[k]) / 2.0);
    SameRun(Signed(dev, p), Abs(dev[k]), Signed(t, p), Abs(t[k]), k, p);
  }

  lemma GainScalesMean(x: seq<real>, w: seq<real>, g: real, lo: nat, hi: nat)
    requires lo <= hi <= |w| && |x| == |w| && g > 0.0 && Mass(w, lo, hi) > 0.0 && Mass(Times(w, g), lo, hi) > 0.0
    ensures WeightedMean(x, Times(w, g), lo, hi) == WeightedMean(x, w, lo, hi)
  {
    GainScalesSums(x, w, g, lo, hi);
    QuotientOfScaled(Moment(x, w, 0.0, lo, hi), Mass(w, lo, hi), g);
  }

  /** Multiply the deviation from `b` by `g`. */
  function Amplifier(b: real, g: real): real -> real {
    v => b + g * (v - b)
  }

  /** The trace with every deviation from `b` multiplied by `g`. */
  function Amplified(readings: seq<real>, b: real, g: real): (r: seq<real>)
    ensures |r| == |readings|
  {
    Map(Amplifier(b, g), readings)
  }

  lemma AmplifierAt(b: real, g: real, x: real)
    ensures Amplifier(b, g)(x) == b + g * (x - b)
  {
  }

  lemma AmplifyRises(x: real, y: real, b: real, g: real, fx: real, fy: real)
    requires g > 0.0 && x < y && fx == b + g * (x - b) && fy == b + g * (y - b)
    ensures fx < fy
  {
    GainKeepsOrder(x - b, y - b, g);
  }

  lemma AmplifierRises(b: real, g: real)
    requires g > 0.0
    ensures Increasing(Amplifier(b, g))
  {
    var f := Amplifier(b, g);
    forall x, y | x < y ensures f(x) < f(y) {
      AmplifyRises(x, y, b, g, f(x), f(y));
    }
  }

  lemma AmplifyMean(x: real, y: real, b: real, g: real)
    ensures b + g * (Mean(x, y) - b) == Mean(b + g * (x - b), b + g * (y - b))
  {
    assert g * ((x + y) / 2.0 - b) == (g * (x - b) + g * (y - b)) / 2.0;
  }

  lemma AmplifierKeepsMidpoint(b: real, g: real, s: seq<real>)
    requires |s| > 0
    ensures KeepsMidpoint(Amplifier(b, g), s)
  {
    if |s| % 2 == 0 { AmplifyMean(s[|s| / 2 - 1], s[|s| / 2], b, g); }
  }

  lemma AmplifiedKeepsMedian(readings: seq<real>, g: real)
    requires |readings| > 0 && g > 0.0
    ensures MedianOf(Amplified(readings, MedianOf(readings), g)) == MedianOf(readings)
  {
    var b := MedianOf(readings);
    AmplifierRises(b, g);
    AmplifierKeepsMidpoint(b, g, Sort(readings));
    MedianFollows(Amplifier(b, g), readings);
    AmplifierAt(b, g, b);
  }

  lemma AmplifiedDeviations(readings: seq<real>, b: real, g: real)
    ensures Deviations(Amplified(readings, b, g), b) == Times(Deviations(readings, b), g)
  {
    var s, t := Deviations(Amplified(readings, b, g), b), Times(Deviations(readings, b), g);
    forall i | 0 <= i < |s| ensures s[i] == t[i] {
      AmplifierAt(b, g, readings[i]);
    }
  }

  function LouderBy(out: Outcome, g: real): Outcome {
    match out
    case Ok(fit) => Ok(fit.(contrast := Gain(g, fit.contrast)))
    case Err(e) => Err(e)
  }

  /** Two runs over the same points, with the same mean, on the same side of their thresholds, are judged alike. */
  lemma JudgedAlike(positions: seq<real>, r: Run, s: Run, baseline: real, minR: real, minS: real)
    requires |positions| == |r.signed| == |s.signed| && Averageable(r) && Averageable(s)
    requires s == r.(signed := s.signed, contrast := s.contrast)
    requires s.contrast < minS <==> r.contrast < minR
    requires r.lo > 0 && r.hi < |positions| - 1 ==>
               WeightedMean(positions, s.signed, r.lo, r.hi + 1) == WeightedMean(positions, r.signed, r.lo, r.hi + 1)
    ensures Judge(positions, s, baseline, minS) ==
            match Judge(positions, r, baseline, minR)
            case Ok(fit) => Ok(fit.(contrast := s.contrast))
            case Err(e) => Err(e)
  {
  }

  lemma JudgedContrast(positions: seq<real>, r: Run, baseline: real, minContrast: real)
    requires |positions| == |r.signed| && Averageable(r)
    ensures var out := Judge(positions, r, baseline, minContrast);
            out.Ok? ==> out.value.contrast == r.contrast
  {
  }

  lemma JudgeLouder(positions: seq<real>, r: Run, s: Run, baseline: real, minContrast: real, g: real)
    requires |positions| == |r.signed| && Averageable(r) && Averageable(s) && g > 0.0
    requires s == r.(signed := Times(r.signed, g), contrast := s.contrast) && s.contrast == Gain(g, r.contrast)
    ensures Judge(positions, s, baseline, Gain(g, minContrast)) == LouderBy(Judge(positions, r, baseline, minContrast), g)
  {
    GainKeepsOrder(r.contrast, minContrast, g);
    if r.lo > 0 && r.hi < |positions| - 1 {
      GainScalesMean(positions, r.signed, g, r.lo, r.hi + 1);
    }
    JudgedAlike(positions, r, s, baseline, minContrast, Gain(g, minContrast));
    JudgedContrast(positions, r, baseline, minContrast);
  }

  lemma LouderContrast(dev: seq<real>, g: real)
    requires |dev| > 0 && g > 0.0
    ensures RunOf(Times(dev, g)).contrast == Gain(g, RunOf(dev).contrast)
  {
    GainKeepsPeak(dev, g);
    var k := PeakIndex(dev);
    HalfOfGain(dev[k], g, Times(dev, g)[k]);
  }

  lemma JudgeLouderTrace(positions: seq<real>, dev: seq<real>, baseline: real, minContrast: real, g: real)
    requires |positions| == |dev| > 0 && g > 0.0
    ensures Averageable(RunOf(dev)) && Averageable(RunOf(Times(dev, g)))
    ensures Judge(positions, RunOf(Times(dev, g)), baseline, Gain(g, minContrast)) ==
            LouderBy(Judge(positions, RunOf(dev), baseline, minContrast), g)
  {
    GainScalesRun(dev, g);
    LouderContrast(dev, g);
    RunIsAverageable(dev);
    RunIsAverageable(Times(dev, g));
    JudgeLouder(positions, RunOf(dev), RunOf(Times(dev, g)), baseline, minContrast, g);
  }

  /** A positive gain on the deviations from the baseline scales the contrast and leaves the centre, the
      run, the width and the polarity alone -- with the baseline given or taken as the median. */
  lemma GainOnlyScalesContrast(positions: seq<real>, readings: seq<real>, minContrast: real,
                               given: Option<real>, g: real)
    requires g > 0.0 && |readings| > 0
    ensures FitOf(positions, Amplified(readings, Baseline(readings, given), g), Gain(g, minContrast), given) ==
            LouderBy(FitOf(positions, readings, minContrast, given), g)
  {
    var b := Baseline(readings, given);
    AmplifiedDeviations(readings, b, g);
    if given.None? { AmplifiedKeepsMedian(readings, g); }
    if |positions| == |readings| {
      JudgeLouderTrace(positions, Deviations(readings, b), b, minContrast, g);
    }
  }

  // ----- inverting the trace -------------------------------------------------------------

  function Negated(x: seq<real>): (r: seq<real>)
    ensures |r| == |x|
    ensures forall i :: 0 <= i < |x| ==> r[i] == -x[i]
  {
    seq(|x|, i requires 0 <= i < |x| => -x[i])
  }

  lemma MirrorKeepsRun(dev: seq<real>)
    requires |dev| > 0
    ensures RunOf(dev).contrast > 0.0 ==> RunOf(Negated(dev)) == RunOf(dev).(polarity := -RunOf(dev).polarity)
    ensures RunOf(dev).contrast == 0.0 ==> RunOf(Negated(dev)).contrast == 0.0 && RunOf(Negated(dev)).lo == 0
  {
    var r, s := RunOf(dev), RunOf(Negated(dev));
    assert SameOrder(dev, Negated(dev));
    SameOrderSamePeak(dev, Negated(dev));
    if r.contrast > 0.0 {
      assert s.signed == r.signed;
    } else if r.contrast == 0.0 {
      FlatRunTouchesEdges(Negated(dev));
    }
  }

  function FlippedPolarity(out: Outcome): Outcome {
    match out
    case Ok(fit) => Ok(fit.(polarity := -fit.polarity))
    case Err(e) => Err(e)
  }

  lemma JudgeMirrored(positions: seq<real>, dev: seq<real>, baseline: real, minContrast: real)
    requires |positions| == |dev| > 0
    ensures Averageable(RunOf(dev)) && Averageable(RunOf(Negated(dev)))
    ensures Judge(positions, RunOf(Negated(dev)), baseline, minContrast) ==
            FlippedPolarity(Judge(positions, RunOf(dev), baseline, minContrast))
  {
    RunIsAverageable(dev);
    RunIsAverageable(Negated(dev));
    RunPeaks(dev);
    MirrorKeepsRun(dev);
    if RunOf(dev).contrast == 0.0 { FlatRunTouchesEdges(dev); }
  }

  /** Reflect about the level `b`. */
  function Mirror(b: real): real -> real {
    v => 2.0 * b - v
  }

  /** The trace reflected about the level `b`: a dark slit becomes a bright one. */
  function Reflected(readings: seq<real>, b: real): (r: seq<real>)
    ensures |r| == |readings|
  {
    Map(Mirror(b), readings)
  }

  lemma MirrorKeepsMidpoint(b: real, s: seq<real>)
    requires |s| > 0
    ensures KeepsMidpoint(Mirror(b), s)
  {
  }

  lemma ReflectedKeepsMedian(readings: seq<real>)
    requires |readings| > 0
    ensures MedianOf(Reflected(readings, MedianOf(readings))) == MedianOf(readings)
  {
    var b := MedianOf(readings);
    MirrorKeepsMidpoint(b, Sort(readings));
    assert Decreasing(Mirror(b));
    MedianFollows(Mirror(b), readings);
  }

  lemma ReflectedDeviations(readings: seq<real>, b: real)
    ensures Deviations(Reflected(readings, b), b) == Negated(Deviations(readings, b))
  {
  }

  /** Reflecting the readings about the baseline flips the polarity and changes nothing else. */
  lemma MirrorOnlyFlipsPolarity(positions: seq<real>, readings: seq<real>, minContrast: real, given: Option<real>)
    requires |readings| > 0
    ensures FitOf(positions, Reflected(readings, Baseline(readings, given)), minContrast, given) ==
            FlippedPolarity(FitOf(positions, readings, minContrast, given))
  {
    var b := Baseline(readings, given);
    if given.None? { ReflectedKeepsMedian(readings); }
    ReflectedDeviations(readings, b);
    if |positions| == |readings| {
      JudgeMirrored(positions, Deviations(readings, b), b, minContrast);
    }
  }
}
