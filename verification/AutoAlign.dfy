/** The camera-read mask alignment: a wide scan, then ever finer re-scans of the bump it found
    (src/lumi/experiment/manager.py, `auto_align_center_mask`). The camera is a function giving the
    marker's reading for a pass and a mask position. */
module AutoAlign {
  import opened Common
  import opened SlitFitting
  import opened CenterBounds

  type Camera = (nat, real) -> real

  datatype AlignError = OutOfTravel | NoSlit(refusal: Refusal)

  /** One scan and the fit it gave. */
  datatype Scan = Scan(pass: nat, start: real, step: real, readings: seq<real>, fit: SlitFit) {
    function Points(): (x: seq<real>)
      ensures |x| == |readings|
    {
      EvenScan(start, step, |readings|)
    }
  }

  /** What the request asks for; the bounds are the request model's own. */
  datatype Request = Request(center: Option<real>, halfWindow: real, step: real, maxPasses: nat,
                             pointsPerPass: nat, tolerance: real, minContrast: real, apply: bool)
  {
    ghost predicate Valid() {
      halfWindow > 0.0 && step > 0.0 && maxPasses >= 1 && pointsPerPass >= 5 && tolerance > 0.0 && minContrast > 0.0
    }
  }

  function Last(x: seq<real>): real
    requires |x| > 0
  {
    x[|x| - 1]
  }

  function InTravel(x: seq<real>, travelMax: real): bool
    requires |x| > 0
  {
    !(x[0] < 0.0 || Last(x) >= travelMax)
  }

  function ReadingsAt(camera: Camera, pass: nat, x: seq<real>): (r: seq<real>)
    ensures |r| == |x|
  {
    seq(|x|, i requires 0 <= i < |x| => camera(pass, x[i]))
  }

  /** Scan `count` points from `start`, and fit them. */
  function ScanAt(camera: Camera, pass: nat, start: real, step: real, count: nat, travelMax: real,
                  minContrast: real, baseline: Option<real>): (r: Result<Scan, AlignError>)
    requires count > 0
    ensures r.Ok? ==> r.value.pass == pass && |r.value.readings| == count
    ensures r.Ok? ==> r.value.start == start && r.value.step == step
  {
    var x := EvenScan(start, step, count);
    if !InTravel(x, travelMax) then Err(OutOfTravel)
    else
      var readings := ReadingsAt(camera, pass, x);
      match FitOf(x, readings, minContrast, baseline)
      case Err(e) => Err(NoSlit(e))
      case Ok(fit) => Ok(Scan(pass, start, step, readings, fit))
  }

  /** The wide scan around the request's centre, or around the current calibration. */
  function FirstScan(camera: Camera, req: Request, previous: real, travelMax: real): (r: Result<Scan, AlignError>)
    requires req.Valid()
    ensures r.Ok? ==> r.value.pass == 0 && |r.value.readings| > 0
  {
    ScanAt(camera, 0, FirstStart(req, previous), req.step, FirstCount(req), travelMax, req.minContrast, None)
  }

  function FirstStart(req: Request, previous: real): real {
    (if req.center.Some? then req.center.value else previous) - req.halfWindow
  }

  function FirstCount(req: Request): (n: nat)
    requires req.Valid()
    ensures n > 0
  {
    var n := RoundHalfEven(2.0 * req.halfWindow / req.step);
    assert 2.0 * req.halfWindow / req.step >= 0.0;
    n + 1
  }

  function HalfWidth(prev: Scan): real {
    prev.fit.width / 2.0 + 2.0 * prev.step
  }

  function StepOf(half: real, points: nat): real
    requires points >= 2
  {
    2.0 * half / (points - 1) as real
  }

  /** The re-scan of a bump: the bump plus two of the last pass's steps on each side. */
  function Rescan(camera: Camera, req: Request, prev: Scan, travelMax: real, baseline: real): (r: Result<Scan, AlignError>)
    requires req.Valid()
    ensures r.Ok? ==> r.value.pass == prev.pass + 1 && |r.value.readings| == req.pointsPerPass
  {
    var half := HalfWidth(prev);
    ScanAt(camera, prev.pass + 1, prev.fit.center - half, StepOf(half, req.pointsPerPass), req.pointsPerPass,
           travelMax, req.minContrast, Some(baseline))
  }

  /** The passes an alignment made, and whether the centre settled. */
  datatype Refined = Refined(scans: seq<Scan>, converged: bool)

  predicate NoneEmpty(scans: seq<Scan>) {
    forall i :: 0 <= i < |scans| ==> |scans[i].readings| > 0
  }

  function Settled(prev: Scan, next: Scan, tolerance: real): bool {
    Abs(next.fit.center - prev.fit.center) < tolerance
  }

  function After(done: seq<Scan>, rest: Result<Refined, AlignError>): Result<Refined, AlignError> {
    match rest
    case Err(e) => Err(e)
    case Ok(r) => Ok(Refined(done + r.scans, r.converged))
  }

  /** The passes that follow `prev`: re-scan until the centre settles or the passes run out. */
  function RefineFrom(camera: Camera, req: Request, prev: Scan, travelMax: real, baseline: real): (r: Result<Refined, AlignError>)
    requires req.Valid()
    ensures r.Ok? ==> NoneEmpty(r.value.scans)
    decreases req.maxPasses - prev.pass
  {
    if prev.pass + 1 >= req.maxPasses then Ok(Refined([], false))
    else
      match Rescan(camera, req, prev, travelMax, baseline)
      case Err(e) => Err(e)
      case Ok(next) =>
        if Settled(prev, next, req.tolerance) then Ok(Refined([next], true))
        else After([next], RefineFrom(camera, req, next, travelMax, baseline))
  }

  /** The whole alignment: every pass it makes from the calibration `previous`, or why it stops. */
  function Align(camera: Camera, req: Request, previous: real, travelMax: real): (r: Result<Refined, AlignError>)
    requires req.Valid()
    ensures r.Ok? ==> |r.value.scans| > 0 && NoneEmpty(r.value.scans)
  {
    match FirstScan(camera, req, previous, travelMax)
    case Err(e) => Err(e)
    case Ok(first) => After([first], RefineFrom(camera, req, first, travelMax, first.fit.baseline))
  }

  // ----- every pass stays inside the travel ----------------------------------------------

  ghost predicate AllInTravel(x: seq<real>, travelMax: real) {
    forall i :: 0 <= i < |x| ==> 0.0 <= x[i] < travelMax
  }

  lemma EvenScanInTravel(start: real, step: real, count: nat, travelMax: real)
    requires step > 0.0 && count > 0 && InTravel(EvenScan(start, step, count), travelMax)
    ensures AllInTravel(EvenScan(start, step, count), travelMax)
  {
    var x := EvenScan(start, step, count);
    forall i | 0 <= i < count ensures 0.0 <= x[i] < travelMax {
      AlongRises(start, step, 0.0, i as real);
      AlongRises(start, step, i as real, (count - 1) as real);
      assert x[0] <= x[i] <= x[count - 1];
    }
  }

  /** A scan the alignment accepts: in the travel, evenly stepped, and fitted by `LocateSlit`'s rule. */
  ghost predicate GoodScan(s: Scan, travelMax: real, minContrast: real, given: Option<real>) {
    && s.step > 0.0 && |s.readings| > 0
    && AllInTravel(s.Points(), travelMax)
    && FitOf(s.Points(), s.readings, minContrast, given) == Ok(s.fit)
  }

  lemma ScanIsGood(camera: Camera, pass: nat, start: real, step: real, count: nat, travelMax: real,
                   minContrast: real, given: Option<real>)
    requires count > 0 && step > 0.0
    requires ScanAt(camera, pass, start, step, count, travelMax, minContrast, given).Ok?
    ensures GoodScan(ScanAt(camera, pass, start, step, count, travelMax, minContrast, given).value, travelMax, minContrast, given)
  {
    EvenScanInTravel(start, step, count, travelMax);
  }

  /** A good scan's centre is itself inside the travel, and its width is not negative. */
  lemma CenterInTravel(s: Scan, travelMax: real, minContrast: real, given: Option<real>)
    requires GoodScan(s, travelMax, minContrast, given)
    ensures 0.0 <= s.fit.center < travelMax
    ensures s.fit.width >= 0.0
  {
    EvenScanAscends(s.start, s.step, |s.readings|);
    FitIsTheMaximalRun(s.Points(), s.readings, minContrast, given);
  }

  /** What the node relies on between passes: a real step, a width, and a centre inside the travel. */
  ghost predicate SoundScan(s: Scan, travelMax: real) {
    s.step > 0.0 && s.fit.width >= 0.0 && 0.0 <= s.fit.center < travelMax
  }

  lemma HalfWidthPositive(s: Scan, travelMax: real, minContrast: real, given: Option<real>)
    requires GoodScan(s, travelMax, minContrast, given)
    ensures HalfWidth(s) > 0.0
  {
    CenterInTravel(s, travelMax, minContrast, given);
  }

  lemma StepPositive(half: real, points: nat)
    requires points >= 2 && half > 0.0
    ensures StepOf(half, points) > 0.0
  {
  }

  lemma StepTimesGaps(half: real, points: nat)
    requires points >= 2
    ensures StepOf(half, points) * (points - 1) as real == 2.0 * half
  {
  }

  // ----- what one re-scan keeps -----------------------------------------------------------

  lemma EvenScanEnds(start: real, half: real, count: nat)
    requires count >= 2
    ensures EvenScan(start, StepOf(half, count), count)[0] == start
    ensures Last(EvenScan(start, StepOf(half, count), count)) == start + 2.0 * half
  {
    StepTimesGaps(half, count);
    assert Along(start, StepOf(half, count), 0.0) == start;
    assert Along(start, StepOf(half, count), (count - 1) as real) == start + StepOf(half, count) * (count - 1) as real;
  }

  /** The window a re-scan sweeps: the last centre, plus and minus half of it. */
  lemma RescanWindow(camera: Camera, req: Request, prev: Scan, travelMax: real, baseline: real)
    requires req.Valid() && HalfWidth(prev) > 0.0 && Rescan(camera, req, prev, travelMax, baseline).Ok?
    ensures var next := Rescan(camera, req, prev, travelMax, baseline).value;
            && |next.readings| == req.pointsPerPass && next.step > 0.0
            && next.Points()[0] == prev.fit.center - HalfWidth(prev)
            && Last(next.Points()) == prev.fit.center + HalfWidth(prev)
  {
    StepPositive(HalfWidth(prev), req.pointsPerPass);
    EvenScanEnds(prev.fit.center - HalfWidth(prev), HalfWidth(prev), req.pointsPerPass);
  }

  lemma RescanIsGood(camera: Camera, req: Request, prev: Scan, travelMax: real, baseline: real, given: Option<real>)
    requires req.Valid() && GoodScan(prev, travelMax, req.minContrast, given)
    requires Rescan(camera, req, prev, travelMax, baseline).Ok?
    ensures GoodScan(Rescan(camera, req, prev, travelMax, baseline).value, travelMax, req.minContrast, Some(baseline))
  {
    HalfWidthPositive(prev, travelMax, req.minContrast, given);
    StepPositive(HalfWidth(prev), req.pointsPerPass);
    ScanIsGood(camera, prev.pass + 1, prev.fit.center - HalfWidth(prev), StepOf(HalfWidth(prev), req.pointsPerPass),
               req.pointsPerPass, travelMax, req.minContrast, Some(baseline));
  }

  /** `next` sweeps every position of the run that `prev` fitted. */
  ghost predicate SweepsRunOf(prev: Scan, next: Scan)
    requires |prev.readings| > 0 && |next.readings| > 0
  {
    && next.Points()[0] <= RunStart(prev.Points(), prev.readings, prev.fit)
    && RunEnd(prev.Points(), prev.readings, prev.fit) <= Last(next.Points())
  }

  lemma RunSpansWidth(s: Scan, travelMax: real, minContrast: real, given: Option<real>)
    requires GoodScan(s, travelMax, minContrast, given)
    ensures s.fit.width == RunEnd(s.Points(), s.readings, s.fit) - RunStart(s.Points(), s.readings, s.fit)
    ensures s.fit.nPoints >= 1 && s.fit.width == Torque(s.step, (s.fit.nPoints - 1) as real)
    ensures s.fit.nPoints + 2 <= |s.readings|
  {
    EvenScanAscends(s.start, s.step, |s.readings|);
    FitIsTheMaximalRun(s.Points(), s.readings, minContrast, given);
    var r := RunOf(Deviations(s.readings, s.fit.baseline));
    AlongRises(s.start, s.step, r.lo as real, r.hi as real);
  }

  /** A re-scan takes in the whole of the run before it, as long as that run spans at most 22 of its own steps. */
  lemma RescanSweepsTheRun(camera: Camera, req: Request, prev: Scan, travelMax: real, baseline: real, given: Option<real>)
    requires req.Valid() && GoodScan(prev, travelMax, req.minContrast, given) && prev.fit.nPoints <= 23
    requires Rescan(camera, req, prev, travelMax, baseline).Ok?
    ensures SweepsRunOf(prev, Rescan(camera, req, prev, travelMax, baseline).value)
  {
    HalfWidthPositive(prev, travelMax, req.minContrast, given);
    RescanWindow(camera, req, prev, travelMax, baseline);
    CenterWithinTwoSteps(prev.start, prev.step, prev.readings, req.minContrast, given);
    RunSpansWidth(prev, travelMax, req.minContrast, given);
  }

  lemma FinerThan(half: real, span: real, step: real, points: nat)
    requires points >= 5 && step > 0.0 && half == Torque(step, span) / 2.0 + 2.0 * step
    ensures StepOf(half, points) < step <==> span < points as real - 5.0
  {
    var next, k := StepOf(half, points), (points - 1) as real;
    assert next * k == 2.0 * half;
    assert 2.0 * half == step * (span + 4.0);
    assert (next - step) * k == step * (span + 4.0 - k);
    SignOfFactor(next - step, k);
    SignOfFactor(span + 4.0 - k, step);
  }

  /** A re-scan is finer than the pass before it exactly when that pass's run spans fewer than
      `pointsPerPass - 5` steps. */
  lemma RescanIsFinerIff(camera: Camera, req: Request, prev: Scan, travelMax: real, baseline: real, given: Option<real>)
    requires req.Valid() && GoodScan(prev, travelMax, req.minContrast, given)
    requires Rescan(camera, req, prev, travelMax, baseline).Ok?
    ensures Rescan(camera, req, prev, travelMax, baseline).value.step < prev.step <==>
            prev.fit.nPoints - 1 < req.pointsPerPass - 5
  {
    RunSpansWidth(prev, travelMax, req.minContrast, given);
    FinerThan(HalfWidth(prev), (prev.fit.nPoints - 1) as real, prev.step, req.pointsPerPass);
  }

  // ----- the whole alignment --------------------------------------------------------------

  /** Every pass after the first is the re-scan of the pass before it. */
  ghost predicate Chained(camera: Camera, req: Request, scans: seq<Scan>, travelMax: real, baseline: real)
    requires req.Valid()
  {
    forall i :: 0 <= i < |scans| - 1 ==> Rescan(camera, req, scans[i], travelMax, baseline) == Ok(scans[i + 1])
  }

  ghost predicate SettledAt(scans: seq<Scan>, i: nat, tolerance: real) {
    0 < i < |scans| && Settled(scans[i - 1], scans[i], tolerance)
  }

  lemma {:induction false} RefineIsChained(camera: Camera, req: Request, prev: Scan, travelMax: real, baseline: real)
    requires req.Valid() && RefineFrom(camera, req, prev, travelMax, baseline).Ok?
    ensures Chained(camera, req, [prev] + RefineFrom(camera, req, prev, travelMax, baseline).value.scans, travelMax, baseline)
    decreases req.maxPasses - prev.pass
  {
    if prev.pass + 1 < req.maxPasses {
      var next := Rescan(camera, req, prev, travelMax, baseline).value;
      if !Settled(prev, next, req.tolerance) {
        RefineIsChained(camera, req, next, travelMax, baseline);
      }
    }
  }

  lemma {:induction false} RefineCountsPasses(camera: Camera, req: Request, prev: Scan, travelMax: real, baseline: real)
    requires req.Valid() && RefineFrom(camera, req, prev, travelMax, baseline).Ok? && prev.pass < req.maxPasses
    ensures var r := RefineFrom(camera, req, prev, travelMax, baseline).value;
            && prev.pass + |r.scans| < req.maxPasses
            && (!r.converged ==> prev.pass + |r.scans| == req.maxPasses - 1)
            && (r.converged ==> |r.scans| > 0)
    decreases req.maxPasses - prev.pass
  {
    if prev.pass + 1 < req.maxPasses {
      var next := Rescan(camera, req, prev, travelMax, baseline).value;
      if !Settled(prev, next, req.tolerance) {
        RefineCountsPasses(camera, req, next, travelMax, baseline);
      }
    }
  }

  lemma SettledLater(prev: Scan, rest: seq<Scan>, i: nat, tolerance: real)
    requires 1 < i < |rest| + 1
    ensures SettledAt([prev] + rest, i, tolerance) <==> SettledAt(rest, i - 1, tolerance)
  {
  }

  lemma {:induction false} RefineStopsWhenSettled(camera: Camera, req: Request, prev: Scan, travelMax: real, baseline: real, i: nat)
    requires req.Valid() && RefineFrom(camera, req, prev, travelMax, baseline).Ok?
    requires 0 < i <= |RefineFrom(camera, req, prev, travelMax, baseline).value.scans|
    ensures var r := RefineFrom(camera, req, prev, travelMax, baseline).value;
            SettledAt([prev] + r.scans, i, req.tolerance) <==> r.converged && i == |r.scans|
    decreases req.maxPasses - prev.pass
  {
    if prev.pass + 1 < req.maxPasses {
      var next := Rescan(camera, req, prev, travelMax, baseline).value;
      if !Settled(prev, next, req.tolerance) {
        var tail := RefineFrom(camera, req, next, travelMax, baseline).value;
        if i > 1 {
          RefineStopsWhenSettled(camera, req, next, travelMax, baseline, i - 1);
          SettledLater(prev, [next] + tail.scans, i, req.tolerance);
        } else if tail.scans == [] && next.pass < req.maxPasses {
          RefineCountsPasses(camera, req, next, travelMax, baseline);
        }
      }
    }
  }

  lemma {:induction false} ChainIsGood(camera: Camera, req: Request, scans: seq<Scan>, travelMax: real, baseline: real, i: nat)
    requires req.Valid() && Chained(camera, req, scans, travelMax, baseline) && i < |scans|
    requires GoodScan(scans[0], travelMax, req.minContrast, None)
    ensures GoodScan(scans[i], travelMax, req.minContrast, if i == 0 then None else Some(baseline))
    ensures scans[i].pass == scans[0].pass + i
  {
    if i > 0 {
      ChainIsGood(camera, req, scans, travelMax, baseline, i - 1);
      assert Rescan(camera, req, scans[i - 1], travelMax, baseline) == Ok(scans[i]);
      RescanIsGood(camera, req, scans[i - 1], travelMax, baseline, if i == 1 then None else Some(baseline));
    }
  }

  lemma FirstScanIsGood(camera: Camera, req: Request, previous: real, travelMax: real)
    requires req.Valid() && FirstScan(camera, req, previous, travelMax).Ok?
    ensures GoodScan(FirstScan(camera, req, previous, travelMax).value, travelMax, req.minContrast, None)
  {
    ScanIsGood(camera, 0, FirstStart(req, previous), req.step, FirstCount(req), travelMax, req.minContrast, None);
  }

  /** The run of pass `i` spans at most 22 steps, or the pass is a re-scan of at most 25 points. */
  ghost predicate Coverable(req: Request, scans: seq<Scan>, i: nat)
    requires i < |scans|
  {
    scans[i].fit.nPoints <= 23 || (i > 0 && req.pointsPerPass <= 25)
  }

  /** A pass after the first has as many points as were asked for, so its run is shorter than that. */
  lemma PassCoverable(camera: Camera, req: Request, scans: seq<Scan>, travelMax: real, baseline: real, i: nat)
    requires req.Valid() && Chained(camera, req, scans, travelMax, baseline) && i < |scans|
    requires GoodScan(scans[0], travelMax, req.minContrast, None) && Coverable(req, scans, i)
    ensures scans[i].fit.nPoints <= 23
  {
    var given := if i == 0 then None else Some(baseline);
    ChainIsGood(camera, req, scans, travelMax, baseline, i);
    RunSpansWidth(scans[i], travelMax, req.minContrast, given);
    if i > 0 {
      assert Rescan(camera, req, scans[i - 1], travelMax, baseline) == Ok(scans[i]);
    }
  }

  lemma PassSweeps(camera: Camera, req: Request, scans: seq<Scan>, travelMax: real, baseline: real, i: nat)
    requires req.Valid() && Chained(camera, req, scans, travelMax, baseline) && i < |scans|
    requires GoodScan(scans[0], travelMax, req.minContrast, None)
    ensures |scans[i].readings| > 0 && AllInTravel(scans[i].Points(), travelMax)
    ensures i < |scans| - 1 && Coverable(req, scans, i) ==> |scans[i + 1].readings| > 0 && SweepsRunOf(scans[i], scans[i + 1])
  {
    ChainIsGood(camera, req, scans, travelMax, baseline, i);
    if i < |scans| - 1 && Coverable(req, scans, i) {
      ChainIsGood(camera, req, scans, travelMax, baseline, i + 1);
      PassCoverable(camera, req, scans, travelMax, baseline, i);
      assert Rescan(camera, req, scans[i], travelMax, baseline) == Ok(scans[i + 1]);
      RescanSweepsTheRun(camera, req, scans[i], travelMax, baseline, if i == 0 then None else Some(baseline));
    }
  }

  /** Over a whole successful alignment: at most `maxPasses` passes, each in the travel; the pass that settles is
      the last one, and without one every pass is made; each pass sweeps the whole run of the one before it when
      that run spans at most 22 steps, which holds of every pass after the first when passes have at most 25 points. */
  lemma AlignmentKeepsTheBump(camera: Camera, req: Request, previous: real, travelMax: real)
    requires req.Valid() && Align(camera, req, previous, travelMax).Ok?
    ensures var r := Align(camera, req, previous, travelMax).value;
            && 1 <= |r.scans| <= req.maxPasses
            && (forall i :: 0 <= i < |r.scans| ==> |r.scans[i].readings| > 0 && AllInTravel(r.scans[i].Points(), travelMax))
            && (forall i :: 0 < i < |r.scans| ==>
                  (SettledAt(r.scans, i, req.tolerance) <==> r.converged && i == |r.scans| - 1))
            && (!r.converged ==> |r.scans| == req.maxPasses)
            && (forall i :: 0 <= i < |r.scans| - 1 && Coverable(req, r.scans, i) ==> SweepsRunOf(r.scans[i], r.scans[i + 1]))
  {
    var first := FirstScan(camera, req, previous, travelMax).value;
    var baseline := first.fit.baseline;
    FirstScanIsGood(camera, req, previous, travelMax);
    RefineIsChained(camera, req, first, travelMax, baseline);
    RefineCountsPasses(camera, req, first, travelMax, baseline);
    var scans := Align(camera, req, previous, travelMax).value.scans;
    forall i | 0 < i < |scans|
      ensures SettledAt(scans, i, req.tolerance) <==>
              Align(camera, req, previous, travelMax).value.converged && i == |scans| - 1
    {
      RefineStopsWhenSettled(camera, req, first, travelMax, baseline, i);
    }
    forall i | 0 <= i < |scans|
      ensures |scans[i].readings| > 0 && AllInTravel(scans[i].Points(), travelMax)
      ensures i < |scans| - 1 && Coverable(req, scans, i) ==> |scans[i + 1].readings| > 0 && SweepsRunOf(scans[i], scans[i + 1])
    {
      PassSweeps(camera, req, scans, travelMax, baseline, i);
    }
  }

  // ----- the node that does it ---------------------------------------------------------------

  datatype Pass = Pass(start: real, stop: real, step: real, center: real, width: real, contrast: real)

  datatype AlignResult = AlignResult(previousCenter: real, center: real, applied: bool, converged: bool,
                                     contrast: real, baseline: real, polarity: int, passes: seq<Pass>)

  function PassOf(s: Scan): Pass
    requires |s.readings| > 0
  {
    Pass(s.Points()[0], Last(s.Points()), s.step, s.fit.center, s.fit.width, s.fit.contrast)
  }

  function PassesOf(scans: seq<Scan>): (p: seq<Pass>)
    requires NoneEmpty(scans)
    ensures |p| == |scans|
    ensures forall i :: 0 <= i < |scans| ==> p[i] == PassOf(scans[i])
  {
    seq(|scans|, i requires 0 <= i < |scans| => PassOf(scans[i]))
  }

  /** The report of an alignment that ran its passes from the calibration `previous`. */
  function Report(req: Request, previous: real, r: Refined): AlignResult
    requires |r.scans| > 0 && NoneEmpty(r.scans)
  {
    var last := r.scans[|r.scans| - 1];
    AlignResult(previous, last.fit.center, req.apply, r.converged, last.fit.contrast, r.scans[0].fit.baseline,
                last.fit.polarity, PassesOf(r.scans))
  }

  // ----- what an alignment did, from its report ---------------------------------------------

  /** A scan is refused for the travel exactly when its first point lies below it or its last one at its end or beyond. */
  lemma OutOfTravelExactly(camera: Camera, pass: nat, start: real, step: real, count: nat, travelMax: real,
                           minContrast: real, baseline: Option<real>)
    requires count > 0
    ensures ScanAt(camera, pass, start, step, count, travelMax, minContrast, baseline) == Err(OutOfTravel) <==>
            start < 0.0 || start + step * (count - 1) as real >= travelMax
  {
    assert EvenScan(start, step, count)[0] == Along(start, step, 0.0) == start;
  }

  /** The middle of the wide scan. */
  function WideMiddle(req: Request, previous: real): real {
    match req.center
    case Some(center) => center
    case None => previous
  }

  lemma WholeSteps(half: real, step: real, n: int)
    requires step > 0.0 && n as real - 0.5 <= 2.0 * half / step <= n as real + 0.5
    ensures 2.0 * half - step / 2.0 <= step * n as real <= 2.0 * half + step / 2.0
  {
    var q := 2.0 * half / step;
    assert q * step == 2.0 * half;
    ProductSign(n as real + 0.5 - q, step);
    ProductSign(q - n as real + 0.5, step);
    assert (n as real + 0.5 - q) * step == step * n as real + step / 2.0 - q * step;
    assert (q - n as real + 0.5) * step == q * step - step * n as real + step / 2.0;
  }

  lemma FirstCountNear(req: Request)
    requires req.Valid()
    ensures FirstCount(req) as real - 1.5 <= 2.0 * req.halfWindow / req.step <= FirstCount(req) as real - 0.5
  {
  }

  lemma ScanEnds(start: real, step: real, count: nat)
    requires count > 0
    ensures EvenScan(start, step, count)[0] == start && Last(EvenScan(start, step, count)) == Along(start, step, (count - 1) as real)
  {
    assert Along(start, step, 0.0) == start;
  }

  lemma WideEnds(middle: real, half: real, step: real, n: int)
    requires step > 0.0 && n as real - 0.5 <= 2.0 * half / step <= n as real + 0.5
    ensures middle + half - step / 2.0 <= Along(middle - half, step, n as real) <= middle + half + step / 2.0
  {
    WholeSteps(half, step, n);
  }

  /** The wide scan starts half a window below the middle and ends within half a step of half a window above it. */
  lemma WideWindow(camera: Camera, req: Request, previous: real, travelMax: real)
    requires req.Valid() && FirstScan(camera, req, previous, travelMax).Ok?
    ensures var x, middle := FirstScan(camera, req, previous, travelMax).value.Points(), WideMiddle(req, previous);
            && x[0] == middle - req.halfWindow
            && middle + req.halfWindow - req.step / 2.0 <= Last(x) <= middle + req.halfWindow + req.step / 2.0
  {
    FirstCountNear(req);
    ScanEnds(FirstStart(req, previous), req.step, FirstCount(req));
    WideEnds(WideMiddle(req, previous), req.halfWindow, req.step, FirstCount(req) - 1);
    assert FirstScan(camera, req, previous, travelMax).value.Points() == EvenScan(FirstStart(req, previous), req.step, FirstCount(req));
  }

  /** Each pass is of its number, and read from the camera at its points. */
  lemma {:induction false} ChainReadsCamera(camera: Camera, req: Request, scans: seq<Scan>, travelMax: real, baseline: real, i: nat)
    requires req.Valid() && Chained(camera, req, scans, travelMax, baseline) && i < |scans|
    requires scans[0].pass == 0 && scans[0].readings == ReadingsAt(camera, 0, scans[0].Points())
    ensures scans[i].pass == i && scans[i].readings == ReadingsAt(camera, i, scans[i].Points())
  {
    if i > 0 {
      ChainReadsCamera(camera, req, scans, travelMax, baseline, i - 1);
      assert Rescan(camera, req, scans[i - 1], travelMax, baseline) == Ok(scans[i]);
    }
  }

  /** A later pass has so many points from half a width and two steps below the centre found to as much above. */
  predicate PassFollows(prev: Pass, next: Pass, points: nat) {
    && next.start == prev.center - (prev.width / 2.0 + 2.0 * prev.step)
    && next.stop == prev.center + (prev.width / 2.0 + 2.0 * prev.step)
    && next.step * (points - 1) as real == next.stop - next.start
  }

  lemma RescanFollows(camera: Camera, req: Request, prev: Scan, travelMax: real, baseline: real, given: Option<real>)
    requires req.Valid() && GoodScan(prev, travelMax, req.minContrast, given)
    requires Rescan(camera, req, prev, travelMax, baseline).Ok?
    ensures PassFollows(PassOf(prev), PassOf(Rescan(camera, req, prev, travelMax, baseline).value), req.pointsPerPass)
  {
    HalfWidthPositive(prev, travelMax, req.minContrast, given);
    RescanWindow(camera, req, prev, travelMax, baseline);
    FollowsFrom(PassOf(prev), PassOf(Rescan(camera, req, prev, travelMax, baseline).value), HalfWidth(prev), req.pointsPerPass);
  }

  lemma FollowsFrom(prev: Pass, next: Pass, half: real, points: nat)
    requires points >= 2 && half == prev.width / 2.0 + 2.0 * prev.step
    requires next.start == prev.center - half && next.stop == prev.center + half && next.step == StepOf(half, points)
    ensures PassFollows(prev, next, points)
  {
    StepTimesGaps(half, points);
  }

  /** The wide scan of a report: around the centre asked for or the calibration before, with the step asked for. */
  predicate WidePass(req: Request, previous: real, p: Pass) {
    && p.step == req.step && p.start == WideMiddle(req, previous) - req.halfWindow
    && WideMiddle(req, previous) + req.halfWindow - req.step / 2.0 <= p.stop
    && p.stop <= WideMiddle(req, previous) + req.halfWindow + req.step / 2.0
  }

  /** The last two centres differ by less than the tolerance. */
  predicate EndsSettled(passes: seq<Pass>, tolerance: real) {
    |passes| > 1 && -tolerance < passes[|passes| - 1].center - passes[|passes| - 2].center < tolerance
  }

  lemma FirstOfAlignment(camera: Camera, req: Request, previous: real, travelMax: real)
    requires req.Valid() && Align(camera, req, previous, travelMax).Ok?
    ensures FirstScan(camera, req, previous, travelMax).Ok?
    ensures var r, first := Align(camera, req, previous, travelMax).value, FirstScan(camera, req, previous, travelMax).value;
            && r.scans[0] == first && first.pass == 0 && first.step == req.step
            && first.readings == ReadingsAt(camera, 0, first.Points())
            && Chained(camera, req, r.scans, travelMax, first.fit.baseline)
            && GoodScan(first, travelMax, req.minContrast, None)
  {
    var first := FirstScan(camera, req, previous, travelMax).value;
    RefineIsChained(camera, req, first, travelMax, first.fit.baseline);
    FirstScanIsGood(camera, req, previous, travelMax);
  }

  /** Each pass is fitted, the first one against its own median and the others against its baseline; and what was read
      is what the camera showed at its points. */
  lemma AlignmentReadsCamera(camera: Camera, req: Request, previous: real, travelMax: real, i: nat)
    requires req.Valid() && Align(camera, req, previous, travelMax).Ok?
    requires i < |Align(camera, req, previous, travelMax).value.scans|
    ensures var scans := Align(camera, req, previous, travelMax).value.scans;
            && (forall j :: 0 <= j < |scans[i].readings| ==>
                  scans[i].readings[j] == camera(i, Along(scans[i].start, scans[i].step, j as real)))
            && FitOf(scans[i].Points(), scans[i].readings, req.minContrast, if i == 0 then None else Some(scans[0].fit.baseline))
               == Ok(scans[i].fit)
  {
    var scans := Align(camera, req, previous, travelMax).value.scans;
    FirstOfAlignment(camera, req, previous, travelMax);
    ChainReadsCamera(camera, req, scans, travelMax, scans[0].fit.baseline, i);
    ChainIsGood(camera, req, scans, travelMax, scans[0].fit.baseline, i);
  }

  lemma PassesFollow(camera: Camera, req: Request, previous: real, travelMax: real, i: nat)
    requires req.Valid() && Align(camera, req, previous, travelMax).Ok?
    requires i + 1 < |Align(camera, req, previous, travelMax).value.scans|
    ensures var passes := PassesOf(Align(camera, req, previous, travelMax).value.scans);
            PassFollows(passes[i], passes[i + 1], req.pointsPerPass)
  {
    var scans := Align(camera, req, previous, travelMax).value.scans;
    FirstOfAlignment(camera, req, previous, travelMax);
    ChainIsGood(camera, req, scans, travelMax, scans[0].fit.baseline, i);
    assert Rescan(camera, req, scans[i], travelMax, scans[0].fit.baseline) == Ok(scans[i + 1]);
    RescanFollows(camera, req, scans[i], travelMax, scans[0].fit.baseline, if i == 0 then None else Some(scans[0].fit.baseline));
  }

  lemma ConvergedExactly(camera: Camera, req: Request, previous: real, travelMax: real)
    requires req.Valid() && Align(camera, req, previous, travelMax).Ok?
    ensures var r := Align(camera, req, previous, travelMax).value;
            r.converged <==> EndsSettled(PassesOf(r.scans), req.tolerance)
  {
    AlignmentKeepsTheBump(camera, req, previous, travelMax);
    var r := Align(camera, req, previous, travelMax).value;
    var first := FirstScan(camera, req, previous, travelMax).value;
    RefineCountsPasses(camera, req, first, travelMax, first.fit.baseline);
    if |r.scans| > 1 {
      assert SettledAt(r.scans, |r.scans| - 1, req.tolerance) <==> r.converged;
    }
  }

  /** What a report says: a wide scan where it was asked for, every later pass around the bump of the one before it,
      convergence exactly when the last two centres differ by less than the tolerance, and the figures of the last pass
      beside the baseline of the first. */
  lemma ReportExactly(camera: Camera, req: Request, previous: real, travelMax: real)
    requires req.Valid() && Align(camera, req, previous, travelMax).Ok?
    ensures var scans := Align(camera, req, previous, travelMax).value.scans;
            var out := Report(req, previous, Align(camera, req, previous, travelMax).value);
            var last := out.passes[|out.passes| - 1];
            && |out.passes| == |scans| && WidePass(req, previous, out.passes[0])
            && (forall i :: 0 <= i < |out.passes| - 1 ==> PassFollows(out.passes[i], out.passes[i + 1], req.pointsPerPass))
            && (out.converged <==> EndsSettled(out.passes, req.tolerance))
            && out.previousCenter == previous && out.applied == req.apply
            && out.center == last.center && out.contrast == last.contrast
            && out.polarity == scans[|scans| - 1].fit.polarity && out.baseline == scans[0].fit.baseline
  {
    var scans := Align(camera, req, previous, travelMax).value.scans;
    FirstOfAlignment(camera, req, previous, travelMax);
    WideWindow(camera, req, previous, travelMax);
    ConvergedExactly(camera, req, previous, travelMax);
    forall i | 0 <= i < |scans| - 1 ensures PassFollows(PassesOf(scans)[i], PassesOf(scans)[i + 1], req.pointsPerPass) {
      PassesFollow(camera, req, previous, travelMax, i);
    }
  }

  // ----- the passes that are left -------------------------------------------------------------

  lemma AfterAfter(done: seq<Scan>, next: Scan, rest: Result<Refined, AlignError>)
    ensures After(done, After([next], rest)) == After(done + [next], rest)
  {
    if rest.Ok? { assert done + ([next] + rest.value.scans) == done + [next] + rest.value.scans; }
  }

  function AllPoints(scans: seq<Scan>): seq<real> {
    if scans == [] then [] else AllPoints(scans[..|scans| - 1]) + scans[|scans| - 1].Points()
  }

  lemma AllPointsAppend(scans: seq<Scan>, s: Scan)
    ensures AllPoints(scans + [s]) == AllPoints(scans) + s.Points()
  {
    assert (scans + [s])[..|scans|] == scans;
  }

  lemma AllPointsOne(s: Scan)
    ensures AllPoints([s]) == s.Points()
  {
    AllPointsAppend([], s);
    assert [] + [s] == [s];
  }

  /** What an alignment that has made `done` still comes to. */
  ghost function Remaining(camera: Camera, req: Request, done: seq<Scan>, prev: Scan, travelMax: real, baseline: real,
                           converged: bool): Result<Refined, AlignError>
    requires req.Valid()
  {
    if converged then Ok(Refined(done, true)) else After(done, RefineFrom(camera, req, prev, travelMax, baseline))
  }

  lemma RemainingUnfolds(camera: Camera, req: Request, done: seq<Scan>, prev: Scan, travelMax: real, baseline: real)
    requires req.Valid() && prev.pass + 1 < req.maxPasses
    ensures Remaining(camera, req, done, prev, travelMax, baseline, false) ==
            match Rescan(camera, req, prev, travelMax, baseline)
            case Err(e) => Err(e)
            case Ok(next) => Remaining(camera, req, done + [next], next, travelMax, baseline, Settled(prev, next, req.tolerance))
  {
    var r := Rescan(camera, req, prev, travelMax, baseline);
    if r.Ok? {
      AfterAfter(done, r.value, RefineFrom(camera, req, r.value, travelMax, baseline));
    }
  }

  lemma RemainingEnds(camera: Camera, req: Request, done: seq<Scan>, prev: Scan, travelMax: real, baseline: real, converged: bool)
    requires req.Valid() && (prev.pass + 1 >= req.maxPasses || converged)
    ensures Remaining(camera, req, done, prev, travelMax, baseline, converged) == Ok(Refined(done, converged))
  {
    assert done + [] == done;
  }

  /** The calibration the node keeps, and the log of mask positions it has commanded. */
  class MaskAligner {
    const travelMax: real
    var centerMaskPos: real
    var moves: seq<real>

    /** Every position ever commanded lies in the mask's travel. */
    ghost predicate Valid()
      reads this
    {
      AllInTravel(moves, travelMax)
    }

    constructor (travelMax: real, centerMaskPos: real)
      ensures this.travelMax == travelMax && this.centerMaskPos == centerMaskPos && moves == []
      ensures Valid()
    {
      this.travelMax := travelMax;
      this.centerMaskPos := centerMaskPos;
      moves := [];
    }

    /** Refuses a position outside the mask's travel; otherwise the mask goes there. */
    method MoveMask(position: real) returns (ok: bool)
      requires Valid()
      modifies this`moves
      ensures Valid()
      ensures ok <==> 0.0 <= position < travelMax
      ensures moves == if ok then old(moves) + [position] else old(moves)
    {
      ok := 0.0 <= position < travelMax;
      if ok {
        moves := moves + [position];
      }
    }

    /** One scan: a move and a reading at each point, in order. No move of it can be refused. */
    method ScanMask(camera: Camera, pass: nat, x: seq<real>) returns (readings: seq<real>)
      requires Valid() && AllInTravel(x, travelMax)
      modifies this`moves
      ensures Valid()
      ensures readings == ReadingsAt(camera, pass, x)
      ensures moves == old(moves) + x
    {
      readings := [];
      for i := 0 to |x|
        invariant Valid() && moves == old(moves) + x[..i]
        invariant readings == ReadingsAt(camera, pass, x)[..i]
      {
        var ok := MoveMask(x[i]);
        assert ok;
        readings := readings + [camera(pass, x[i])];
      }
    }

    /** Scan and fit, after checking that the whole window lies in the travel. */
    method FitScan(camera: Camera, pass: nat, start: real, step: real, count: nat, minContrast: real, baseline: Option<real>)
      returns (r: Result<Scan, AlignError>)
      requires Valid() && count > 0 && step > 0.0
      modifies this`moves
      ensures r == ScanAt(camera, pass, start, step, count, travelMax, minContrast, baseline)
      ensures Valid() && (r == Err(OutOfTravel) ==> moves == old(moves))
      ensures r.Ok? ==> moves == old(moves) + r.value.Points() && SoundScan(r.value, travelMax)
    {
      var x := EvenScan(start, step, count);
      if !InTravel(x, travelMax) {
        return Err(OutOfTravel);
      }
      EvenScanInTravel(start, step, count, travelMax);
      var readings := ScanMask(camera, pass, x);
      var out := LocateSlit(x, readings, minContrast, baseline);
      match out {
        case Err(e) => return Err(NoSlit(e));
        case Ok(fit) =>
          r := Ok(Scan(pass, start, step, readings, fit));
          CenterInTravel(r.value, travelMax, minContrast, baseline);
      }
    }

    /** The re-scan of the bump that `prev` found. */
    method RescanBump(camera: Camera, req: Request, prev: Scan, baseline: real) returns (r: Result<Scan, AlignError>)
      requires Valid() && req.Valid() && SoundScan(prev, travelMax)
      modifies this`moves
      ensures Valid()
      ensures r == Rescan(camera, req, prev, travelMax, baseline)
      ensures r.Ok? ==> moves == old(moves) + r.value.Points() && SoundScan(r.value, travelMax)
    {
      var half := HalfWidth(prev);
      StepPositive(half, req.pointsPerPass);
      r := FitScan(camera, prev.pass + 1, prev.fit.center - half, StepOf(half, req.pointsPerPass), req.pointsPerPass,
                   req.minContrast, Some(baseline));
    }

    /** One turn of the re-scan loop, and what the alignment comes to after it. */
    method NextPass(camera: Camera, req: Request, scans: seq<Scan>, prev: Scan, baseline: real)
      returns (next: Result<Scan, AlignError>)
      requires Valid() && req.Valid() && SoundScan(prev, travelMax) && prev.pass + 1 < req.maxPasses
      modifies this`moves
      ensures Valid()
      ensures next.Ok? ==> next.value.pass == prev.pass + 1 && SoundScan(next.value, travelMax)
      ensures next.Ok? ==> AllPoints(scans + [next.value]) == AllPoints(scans) + next.value.Points()
      ensures next.Ok? ==> moves == old(moves) + next.value.Points()
      ensures Remaining(camera, req, scans, prev, travelMax, baseline, false) ==
              match next
              case Err(e) => Err(e)
              case Ok(s) => Remaining(camera, req, scans + [s], s, travelMax, baseline, Settled(prev, s, req.tolerance))
    {
      next := RescanBump(camera, req, prev, baseline);
      RemainingUnfolds(camera, req, scans, prev, travelMax, baseline);
      if next.Ok? {
        AllPointsAppend(scans, next.value);
      }
    }

    /** The loop of re-scans after the wide one. `base` is the log before the wide scan. */
    method Refine(camera: Camera, req: Request, first: Scan, ghost base: seq<real>) returns (r: Result<Refined, AlignError>)
      requires Valid() && req.Valid() && SoundScan(first, travelMax)
      requires moves == base + AllPoints([first])
      modifies this`moves
      ensures Valid()
      ensures r == After([first], RefineFrom(camera, req, first, travelMax, first.fit.baseline))
      ensures r.Ok? ==> |r.value.scans| > 0
      ensures r.Ok? ==> moves == base + AllPoints(r.value.scans)
      ensures r.Ok? ==> 0.0 <= r.value.scans[|r.value.scans| - 1].fit.center < travelMax
    {
      var prev, baseline, converged := first, first.fit.baseline, false;
      var scans := [first];
      ghost var whole := After([first], RefineFrom(camera, req, first, travelMax, baseline));
      while prev.pass + 1 < req.maxPasses && !converged
        invariant |scans| > 0 && scans[|scans| - 1] == prev
        invariant SoundScan(prev, travelMax)
        invariant Valid() && moves == base + AllPoints(scans)
        invariant whole == Remaining(camera, req, scans, prev, travelMax, baseline, converged)
        decreases req.maxPasses - prev.pass, !converged
      {
        var next := NextPass(camera, req, scans, prev, baseline);
        if next.Err? {
          return Err(next.error);
        }
        converged := Settled(prev, next.value, req.tolerance);
        scans, prev := scans + [next.value], next.value;
      }
      RemainingEnds(camera, req, scans, prev, travelMax, baseline, converged);
      return Ok(Refined(scans, converged));
    }

    /** Keep the last pass's centre if asked to, and leave the mask there. */
    method Conclude(req: Request, previous: real, r: Refined) returns (out: AlignResult)
      requires Valid() && |r.scans| > 0 && NoneEmpty(r.scans)
      requires 0.0 <= r.scans[|r.scans| - 1].fit.center < travelMax
      modifies this
      ensures Valid()
      ensures out == Report(req, previous, r)
      ensures centerMaskPos == if req.apply then out.center else old(centerMaskPos)
      ensures moves == old(moves) + [out.center]
    {
      var last := r.scans[|r.scans| - 1];
      if req.apply {
        centerMaskPos := last.fit.center;
      }
      var ok := MoveMask(last.fit.center);
      assert ok;
      out := Report(req, previous, r);
    }

    /** The wide scan around the request's centre or the calibration. */
    method WideScan(camera: Camera, req: Request) returns (r: Result<Scan, AlignError>)
      requires Valid() && req.Valid()
      modifies this`moves
      ensures Valid()
      ensures r == FirstScan(camera, req, centerMaskPos, travelMax)
      ensures r.Ok? ==> SoundScan(r.value, travelMax)
      ensures r.Ok? ==> moves == old(moves) + AllPoints([r.value])
    {
      r := FitScan(camera, 0, FirstStart(req, centerMaskPos), req.step, FirstCount(req), req.minContrast, None);
      if r.Ok? {
        AllPointsOne(r.value);
      }
    }

    /** Every pass of the alignment. */
    method RunPasses(camera: Camera, req: Request) returns (r: Result<Refined, AlignError>)
      requires Valid() && req.Valid()
      modifies this`moves
      ensures Valid()
      ensures r == Align(camera, req, centerMaskPos, travelMax)
      ensures r.Ok? ==> moves == old(moves) + AllPoints(r.value.scans)
      ensures r.Ok? ==> 0.0 <= r.value.scans[|r.value.scans| - 1].fit.center < travelMax
    {
      var first := WideScan(camera, req);
      if first.Err? {
        return Err(first.error);
      }
      r := Refine(camera, req, first.value, old(moves));
    }

    /** The alignment. On success the calibration moves to the centre of the last pass if that was asked for; on any
        refusal it stays. Every commanded move lies in the travel, the final one to the centre included. */
    method AutoAlign(camera: Camera, req: Request) returns (out: Result<AlignResult, AlignError>)
      requires Valid() && req.Valid()
      modifies this
      ensures Valid()
      ensures match Align(camera, req, old(centerMaskPos), travelMax)
              case Err(e) => out == Err(e) && centerMaskPos == old(centerMaskPos)
              case Ok(r) =>
                && out == Ok(Report(req, old(centerMaskPos), r))
                && centerMaskPos == (if req.apply then out.value.center else old(centerMaskPos))
                && moves == old(moves) + AllPoints(r.scans) + [out.value.center]
    {
      var previous := centerMaskPos;
      var r := RunPasses(camera, req);
      if r.Err? {
        return Err(r.error);
      }
      var result := Conclude(req, previous, r.value);
      return Ok(result);
    }
  }
}
