/** Where a substrate's growth positions lie (src/lumi/experiment/manager.py, lines 179-189 and 297-306). */
module Positions {
  import opened Common
  import opened Median

  datatype Geometry = Geometry(width: real, spacing: Option<real>)

  datatype GeometryError = DivisionByZero

  function Rung(i: int, spacing: real): real {
    i as real * spacing
  }

  /** How many positions lie on either side of the middle. */
  function Reach(width: real, spacing: real): nat
    requires spacing != 0.0
  {
    var k := (width / 2.0 / spacing).Floor;
    if k < 0 then 0 else k
  }

  /** The whole multiples of `spacing` from `-k` to `k`, in order. */
  function EvenRow(k: nat, spacing: real): (row: seq<real>)
    ensures |row| == 2 * k + 1
  {
    seq(2 * k + 1, j requires 0 <= j < 2 * k + 1 => Rung(j - k, spacing))
  }

  /** A substrate without a spacing has the one position in its middle; a spacing of zero divides by zero. */
  function ComputedPositions(g: Geometry): Result<seq<real>, GeometryError> {
    match g.spacing
    case None => Ok([0.0])
    case Some(s) => if s == 0.0 then Err(DivisionByZero) else Ok(EvenRow(Reach(g.width, s), Abs(s)))
  }

  /** The positions outwards from the middle, as they are first listed. */
  function Outwards(k: nat, spacing: real): (list: seq<real>)
    ensures |list| == 2 * k + 1
  {
    if k == 0 then [0.0] else Outwards(k - 1, spacing) + [Rung(k, spacing)] + [Rung(0 - k, spacing)]
  }

  lemma RungMonotone(i: int, j: int, spacing: real)
    requires i <= j && spacing >= 0.0
    ensures Rung(i, spacing) <= Rung(j, spacing)
  {
    assert (j - i) as real * spacing >= 0.0;
    assert Rung(j, spacing) - Rung(i, spacing) == (j - i) as real * spacing;
  }

  lemma EvenRowSorted(k: nat, spacing: real)
    requires spacing >= 0.0
    ensures Sorted(EvenRow(k, spacing))
  {
    var row := EvenRow(k, spacing);
    forall i, j | 0 <= i < j < |row| ensures row[i] <= row[j] {
      RungMonotone(i - k, j - k, spacing);
    }
  }

  lemma EvenRowGrows(k: nat, spacing: real)
    requires k > 0
    ensures EvenRow(k, spacing) == [Rung(0 - k, spacing)] + EvenRow(k - 1, spacing) + [Rung(k, spacing)]
  {
  }

  lemma RungsBothWays(k: int, spacing: real)
    ensures var s := Abs(spacing);
            || (Rung(k, spacing) == Rung(k, s) && Rung(0 - k, spacing) == Rung(0 - k, s))
            || (Rung(k, spacing) == Rung(0 - k, s) && Rung(0 - k, spacing) == Rung(k, s))
  {
  }

  lemma {:induction false} OutwardsIsEvenRow(k: nat, spacing: real)
    ensures multiset(Outwards(k, spacing)) == multiset(EvenRow(k, Abs(spacing)))
  {
    if k == 0 {
      assert Rung(0, Abs(spacing)) == 0.0;
      assert EvenRow(0, Abs(spacing)) == [0.0];
    } else {
      OutwardsIsEvenRow(k - 1, spacing);
      EvenRowGrows(k, Abs(spacing));
      RungsBothWays(k, spacing);
      PutAround(Outwards(k - 1, spacing), EvenRow(k - 1, Abs(spacing)), Rung(k, spacing), Rung(0 - k, spacing));
    }
  }

  lemma PutAround(a: seq<real>, b: seq<real>, x: real, y: real)
    requires multiset(a) == multiset(b)
    ensures multiset(a + [x] + [y]) == multiset([x] + b + [y]) == multiset([y] + b + [x])
  {
  }

  method ComputePositions(g: Geometry) returns (result: Result<seq<real>, GeometryError>)
    ensures result == ComputedPositions(g)
  {
    if g.spacing.None? {
      return Ok([0.0]);
    }
    var spacing := g.spacing.value;
    if spacing == 0.0 {
      return Err(DivisionByZero);
    }
    var top := (g.width / 2.0 / spacing).Floor + 1;
    var positions := [0.0];
    var i := 1;
    while i < top
      invariant 1 <= i && (i <= top || i == 1)
      invariant positions == Outwards(i - 1, spacing)
    {
      positions := positions + [Rung(i, spacing)];
      positions := positions + [Rung(0 - i, spacing)];
      i := i + 1;
    }
    var k := Reach(g.width, spacing);
    assert i - 1 == k;
    SortSorts(positions);
    SortMultiset(positions);
    OutwardsIsEvenRow(k, spacing);
    EvenRowSorted(k, Abs(spacing));
    SortedUnique(Sort(positions), EvenRow(k, Abs(spacing)));
    result := Ok(Sort(positions));
  }

  /** Computed positions ascend strictly by the spacing, mirror each other, and stay on the substrate. */
  lemma ComputedPositionsFit(g: Geometry, i: nat)
    requires g.width >= 0.0 && g.spacing.Some? && g.spacing.value > 0.0
    requires ComputedPositions(g).Ok? && i < |ComputedPositions(g).value|
    ensures var ps := ComputedPositions(g).value;
            && Abs(ps[i]) <= g.width / 2.0
            && ps[|ps| - 1 - i] == -ps[i]
            && (i + 1 < |ps| ==> ps[i + 1] - ps[i] == g.spacing.value)
  {
    var s := g.spacing.value;
    var k := Reach(g.width, s);
    assert Rung(i - k + 1, s) - Rung(i - k, s) == s;
    assert Rung(k - i, s) == -Rung(i - k, s);
    ReachFits(g.width, s);
    RungMonotone(i - k, k, s);
    RungMonotone(0 - k, i - k, s);
  }

  lemma ReachFits(width: real, spacing: real)
    requires width >= 0.0 && spacing > 0.0
    ensures Rung(Reach(width, spacing), spacing) <= width / 2.0
    ensures Rung(0 - Reach(width, spacing), spacing) >= -width / 2.0
  {
    var q := width / 2.0 / spacing;
    assert q >= 0.0;
    assert q.Floor as real <= q;
    var slack := q - q.Floor as real;
    assert slack * spacing >= 0.0;
    assert q * spacing == width / 2.0;
    assert Rung(q.Floor, spacing) == q * spacing - slack * spacing;
  }

  lemma QuotientReaches(width: real, spacing: real, i: nat)
    requires spacing != 0.0
    ensures i <= Reach(width, spacing) <==> i == 0 || i as real <= width / 2.0 / spacing
  {
    var q := width / 2.0 / spacing;
    assert q.Floor as real <= q < q.Floor as real + 1.0;
  }

  lemma AbsoluteRung(i: int, spacing: real)
    ensures Rung(i, Abs(spacing)) == Rung(if spacing < 0.0 then -i else i, spacing)
  {
  }

  /** The computed positions are the multiples of the spacing up to half the width on either side, and the middle. */
  lemma ComputedExactly(g: Geometry, x: real)
    requires g.spacing.Some? && g.spacing.value != 0.0
    ensures ComputedPositions(g).Ok?
    ensures x in ComputedPositions(g).value <==>
            exists i: int :: x == Rung(i, g.spacing.value)
                          && (i == 0 || (if i < 0 then -i else i) as real <= g.width / 2.0 / g.spacing.value)
  {
    var s := g.spacing.value;
    var k := Reach(g.width, s);
    var ps := ComputedPositions(g).value;
    if x in ps {
      var j :| 0 <= j < |ps| && ps[j] == x;
      var i := if s < 0.0 then k - j else j - k;
      AbsoluteRung(j - k, s);
      QuotientReaches(g.width, s, if i < 0 then -i else i);
      assert x == Rung(i, s);
    }
    if i: int :| x == Rung(i, s) && (i == 0 || (if i < 0 then -i else i) as real <= g.width / 2.0 / s) {
      QuotientReaches(g.width, s, if i < 0 then -i else i);
      var m := if s < 0.0 then -i else i;
      AbsoluteRung(m, s);
      assert ps[m + k] == x;
    }
  }

  // ----- the travel of the RHEED stage ------------------------------------------------------

  /** The stage's limits, in either order, and where it sees the middle of the substrate. */
  datatype RheedStage = RheedStage(limitA: real, limitB: real, centre: real)

  predicate CanSee(stage: RheedStage, position: real) {
    var at := -position + stage.centre;
    if stage.limitA <= stage.limitB then stage.limitA <= at <= stage.limitB else stage.limitB <= at <= stage.limitA
  }

  function Seen(stage: RheedStage, positions: seq<real>): seq<real> {
    if positions == [] then []
    else (if CanSee(stage, positions[0]) then [positions[0]] else []) + Seen(stage, positions[1..])
  }

  /** Positions outside the stage's travel are listed, then every position in that list is dropped. */
  method DropByRheedLimit(stage: RheedStage, positions: seq<real>) returns (kept: seq<real>)
    ensures kept == Seen(stage, positions)
  {
    var toDrop := [];
    var i := 0;
    while i < |positions|
      invariant i <= |positions|
      invariant forall x :: x in toDrop <==> x in positions[..i] && !CanSee(stage, x)
    {
      if !CanSee(stage, positions[i]) {
        toDrop := toDrop + [positions[i]];
      }
      assert positions[..i + 1] == positions[..i] + [positions[i]];
      i := i + 1;
    }
    assert positions[..i] == positions;
    kept := [];
    i := 0;
    while i < |positions|
      invariant i <= |positions|
      invariant kept + Seen(stage, positions[i..]) == Seen(stage, positions)
    {
      if positions[i] !in toDrop {
        kept := kept + [positions[i]];
      }
      i := i + 1;
    }
    assert positions[i..] == [];
  }

  lemma {:induction false} SeenExactly(stage: RheedStage, positions: seq<real>, x: real)
    ensures x in Seen(stage, positions) <==> x in positions && CanSee(stage, x)
  {
    if positions != [] {
      SeenExactly(stage, positions[1..], x);
      assert positions == [positions[0]] + positions[1..];
    }
  }

  /** The positions a substrate gets: those given, or else the computed ones, within the stage's travel. */
  function PositionsFor(stage: RheedStage, g: Geometry, given: seq<real>): Result<seq<real>, GeometryError> {
    if given != [] then Ok(Seen(stage, given))
    else
      match ComputedPositions(g)
      case Ok(ps) => Ok(Seen(stage, ps))
      case Err(e) => Err(e)
  }

  // ----- what the stage reaches -------------------------------------------------------------

  /** With the substrate moved so that the position is in the middle of the view, the stage is within its limits,
      whichever of them is the greater. */
  predicate WithinLimits(stage: RheedStage, x: real) {
    var least := if stage.limitA < stage.limitB then stage.limitA else stage.limitB;
    var greatest := if stage.limitA < stage.limitB then stage.limitB else stage.limitA;
    least <= stage.centre - x <= greatest
  }

  /** What is kept of some positions are those that put the stage within its limits. */
  lemma KeptExactly(stage: RheedStage, positions: seq<real>, x: real)
    ensures x in Seen(stage, positions) <==> x in positions && WithinLimits(stage, x)
  {
    SeenExactly(stage, positions, x);
  }

  /** Keeping goes position by position, in order and as often as each was listed. */
  lemma {:induction false} SeenSplits(stage: RheedStage, a: seq<real>, b: seq<real>)
    ensures Seen(stage, a + b) == Seen(stage, a) + Seen(stage, b)
  {
    if a == [] {
      assert a + b == b;
    } else {
      assert (a + b)[1..] == a[1..] + b;
      SeenSplits(stage, a[1..], b);
    }
  }

  lemma SeenOne(stage: RheedStage, x: real)
    ensures Seen(stage, [x]) == if WithinLimits(stage, x) then [x] else []
  {
    assert [x][1..] == [];
  }

  /** A substrate gets the positions given, if there are any, or else the computed ones, and of these exactly those that
      put the stage within its limits; it gets none exactly when none are given and the spacing is zero. */
  lemma PositionsExactly(stage: RheedStage, g: Geometry, given: seq<real>, x: real)
    ensures PositionsFor(stage, g, given).Err? <==> given == [] && g.spacing == Some(0.0)
    ensures PositionsFor(stage, g, given).Ok? ==>
              (x in PositionsFor(stage, g, given).value <==>
               (if given != [] then x in given else x in ComputedPositions(g).value) && WithinLimits(stage, x))
  {
    if given != [] {
      KeptExactly(stage, given, x);
    } else if ComputedPositions(g).Ok? {
      KeptExactly(stage, ComputedPositions(g).value, x);
    }
  }
}
