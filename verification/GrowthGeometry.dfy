/** Which geometry a correction starts from: the loaded copy's, which need not be the stored one
    (src/lumi/experiment/manager.py, lines 488-511). */
module GrowthGeometry {
  import opened Common
  import opened Positions
  import opened GrowthHistory
  import opened GrowthInvariants
  import P = SubstrateProgress

  // ----- layouts ------------------------------------------------------------------------------

  /** What positions are computed from a geometry: none, or a row of so many to each side, so far apart. */
  datatype Layout = Fails | Row(reach: nat, apart: real)

  function LayoutOf(g: Geometry): Layout {
    match g.spacing
    case None => Row(0, 0.0)
    case Some(s) =>
      if s == 0.0 then Fails
      else
        var reach := Reach(g.width, s);
        Row(reach, if reach == 0 then 0.0 else Abs(s))
  }

  lemma RowOfOne(spacing: real)
    ensures EvenRow(0, spacing) == [0.0]
  {
    assert Rung(0, spacing) == 0.0;
  }

  lemma ComputedFromLayout(g: Geometry)
    ensures match LayoutOf(g)
            case Fails => ComputedPositions(g).Err?
            case Row(k, d) => ComputedPositions(g) == Ok(EvenRow(k, d))
  {
    RowOfOne(0.0);
    if g.spacing.Some? && g.spacing.value != 0.0 { RowOfOne(Abs(g.spacing.value)); }
  }

  lemma RowsDiffer(k: nat, d: real, k': nat, d': real)
    requires EvenRow(k, d) == EvenRow(k', d')
    ensures k == k' && (k > 0 ==> d == d')
  {
    assert |EvenRow(k, d)| == |EvenRow(k', d')|;
    if k > 0 {
      assert EvenRow(k, d)[k + 1] == Rung(1, d) == d;
      assert EvenRow(k', d')[k + 1] == Rung(1, d') == d';
    }
  }

  /** Two geometries give the same positions exactly when their layouts are the same. */
  lemma SamePositionsExactly(g: Geometry, g': Geometry)
    ensures ComputedPositions(g) == ComputedPositions(g') <==> LayoutOf(g) == LayoutOf(g')
  {
    ComputedFromLayout(g);
    ComputedFromLayout(g');
    if LayoutOf(g).Row? && LayoutOf(g').Row? && ComputedPositions(g) == ComputedPositions(g') {
      RowsDiffer(LayoutOf(g).reach, LayoutOf(g).apart, LayoutOf(g').reach, LayoutOf(g').apart);
    }
  }

  // ----- corrections from the copy and from the row ------------------------------------------------

  /** The fields the edit leaves as they are agree. */
  predicate UneditedAgree(edit: Edit, g: Geometry, g': Geometry) {
    (edit.width.Some? || g.width == g'.width) && (edit.spacing.Some? || g.spacing == g'.spacing)
  }

  /** The edited geometries are the same exactly when the unedited fields agree. */
  lemma SameStartExactly(edit: Edit, g: Geometry, g': Geometry)
    ensures edit.On(g) == edit.On(g') <==> UneditedAgree(edit, g, g')
  {
  }

  lemma UsedGeometryShows(stage: RheedStage, c: Campaign, id: nat, edit: Edit, g: Geometry, g': Geometry)
    requires id < |c.db.substrates| && edit.IsGeometry()
    ensures var a, b := EditAppliedUsing(stage, c, id, edit, g), EditAppliedUsing(stage, c, id, edit, g');
            (a.0.db == b.0.db && a.1 == b.1) <==>
            PositionsFor(stage, edit.On(g), edit.Given()) == PositionsFor(stage, edit.On(g'), edit.Given())
  {
    var p, q := PositionsFor(stage, edit.On(g), edit.Given()), PositionsFor(stage, edit.On(g'), edit.Given());
    if p.Ok? && q.Ok? {
      assert GeometryApplied(c, id, edit, p.value).db.substrates[id].positions == p.value;
      assert GeometryApplied(c, id, edit, q.value).db.substrates[id].positions == q.value;
    }
  }

  /** The positions computed from a geometry that the stage can see. */
  function SeenOf(stage: RheedStage, g: Geometry): Result<seq<real>, GeometryError> {
    PositionsFor(stage, g, [])
  }

  /** Whether the correction stores, and refuses, what it would if it started from the stored row. */
  predicate StoresAsFromRow(stage: RheedStage, c: Campaign, id: nat, edit: Edit)
    requires id < |c.db.substrates|
  {
    var a, b := EditApplied(stage, c, id, edit), EditAppliedUsing(stage, c, id, edit, c.db.substrates[id].geometry);
    a.0.db == b.0.db && a.1 == b.1
  }

  ghost predicate SeesAll(stage: RheedStage, g: Geometry) {
    ComputedPositions(g).Ok? ==> forall x :: x in ComputedPositions(g).value ==> CanSee(stage, x)
  }

  lemma {:induction false} SeenAll(stage: RheedStage, positions: seq<real>)
    requires forall x :: x in positions ==> CanSee(stage, x)
    ensures Seen(stage, positions) == positions
  {
    if positions != [] {
      assert positions == [positions[0]] + positions[1..];
      SeenAll(stage, positions[1..]);
    }
  }

  lemma ComputedWhenSeen(stage: RheedStage, g: Geometry)
    requires SeesAll(stage, g)
    ensures PositionsFor(stage, g, []) == ComputedPositions(g)
  {
    if ComputedPositions(g).Ok? { SeenAll(stage, ComputedPositions(g).value); }
  }

  /** A correction stores what it would from the row exactly when its positions are given, or the positions that the
      stage can see of the copy's and the row's geometries, once edited, are the same. */
  lemma StoresAsFromRowExactly(stage: RheedStage, c: Campaign, id: nat, edit: Edit)
    requires id < |c.db.substrates| && edit.IsGeometry()
    ensures var r := c.db.substrates[id].geometry;
            StoresAsFromRow(stage, c, id, edit) <==>
            edit.Given() != [] || SeenOf(stage, edit.On(TargetGeometry(c, id, r))) == SeenOf(stage, edit.On(r))
  {
    var r := c.db.substrates[id].geometry;
    UsedGeometryShows(stage, c, id, edit, TargetGeometry(c, id, r), r);
  }

  /** On a stage that reaches all the positions of both, exactly when the two have the same layout. */
  lemma StoresAsFromRowByLayout(stage: RheedStage, c: Campaign, id: nat, edit: Edit)
    requires id < |c.db.substrates| && edit.IsGeometry()
    requires var r := c.db.substrates[id].geometry;
             edit.Given() == [] ==> SeesAll(stage, edit.On(TargetGeometry(c, id, r))) && SeesAll(stage, edit.On(r))
    ensures var r := c.db.substrates[id].geometry;
            StoresAsFromRow(stage, c, id, edit) <==>
            edit.Given() != [] || LayoutOf(edit.On(TargetGeometry(c, id, r))) == LayoutOf(edit.On(r))
  {
    var r := c.db.substrates[id].geometry;
    var g := TargetGeometry(c, id, r);
    StoresAsFromRowExactly(stage, c, id, edit);
    if edit.Given() == [] {
      ComputedWhenSeen(stage, edit.On(g));
      ComputedWhenSeen(stage, edit.On(r));
      SamePositionsExactly(edit.On(g), edit.On(r));
    }
  }

  /** It starts from the row's own values, and so stores the same on every stage, when the unedited fields agree. */
  lemma UneditedAgreeSuffices(stage: RheedStage, c: Campaign, id: nat, edit: Edit)
    requires id < |c.db.substrates|
    requires var r := c.db.substrates[id].geometry; UneditedAgree(edit, TargetGeometry(c, id, r), r)
    ensures StoresAsFromRow(stage, c, id, edit)
  {
    var r := c.db.substrates[id].geometry;
    SameStartExactly(edit, TargetGeometry(c, id, r), r);
    if edit.IsGeometry() { UsedGeometryShows(stage, c, id, edit, TargetGeometry(c, id, r), r); }
  }

  /** Disagreeing is not enough to store something else: these widths have one row of positions. */
  lemma WidthsWithOneRow()
    ensures LayoutOf(Geometry(10.0, Some(1.0))) == LayoutOf(Geometry(11.0, Some(1.0))) == Row(5, 1.0)
  {
  }

  // ----- runs without a refused geometry -----------------------------------------------------------

  ghost predicate GeometryIsRows(l: Loaded, substrates: seq<SubstrateRow>) {
    l.id < |substrates| && l.geometry == substrates[l.id].geometry
  }

  /** The first copy of each substrate has the stored geometry. */
  ghost predicate GeometryAgrees(c: Campaign) {
    forall j: nat :: j < |c.loaded| && IsFirstCopy(c.loaded, j) ==> GeometryIsRows(c.loaded[j], c.db.substrates)
  }

  /** Only progress, or the tail of the loaded ones, has changed. */
  ghost predicate SamePlaces(c: Campaign, c': Campaign) {
    && c'.db.substrates == c.db.substrates && |c'.loaded| <= |c.loaded|
    && forall j :: 0 <= j < |c'.loaded| ==> c'.loaded[j].id == c.loaded[j].id && c'.loaded[j].geometry == c.loaded[j].geometry
  }

  lemma SamePlacesKeepGeometry(c: Campaign, c': Campaign)
    requires GeometryAgrees(c) && SamePlaces(c, c')
    ensures GeometryAgrees(c')
  {
    forall j: nat | j < |c'.loaded| && IsFirstCopy(c'.loaded, j) ensures GeometryIsRows(c'.loaded[j], c'.db.substrates) {
      FirstAmongSameIds(c.loaded, c'.loaded, j);
      assert GeometryIsRows(c.loaded[j], c.db.substrates);
    }
  }

  lemma PushKeepsGeometry(c: Campaign, db: Db, l: Loaded)
    requires GeometryAgrees(c) && c.db.substrates <= db.substrates && GeometryIsRows(l, db.substrates)
    ensures GeometryAgrees(Campaign(db, c.loaded + [l]))
  {
    var c' := Campaign(db, c.loaded + [l]);
    forall j: nat | j < |c'.loaded| && IsFirstCopy(c'.loaded, j) ensures GeometryIsRows(c'.loaded[j], db.substrates) {
      if j < |c.loaded| {
        FirstAmongSameIds(c.loaded, c'.loaded, j);
        assert GeometryIsRows(c.loaded[j], c.db.substrates);
      }
    }
  }

  lemma FinishedKeepsPlaces(c: Campaign)
    ensures SamePlaces(c, Finished(c))
  {
  }

  lemma ReopenedKeepsPlaces(c: Campaign, i: nat)
    requires c.loaded != []
    ensures SamePlaces(c, Reopened(c, i))
  {
  }

  lemma RetiredKeepsPlaces(c: Campaign, k: nat, retire: bool)
    requires k < |c.db.growths|
    ensures SamePlaces(c, Retired(c, k, retire))
  {
  }

  /** Setting the first copy's geometry and the row's leaves the agreement as it was between these two. */
  lemma CopyKeepsGeometry(c: Campaign, c': Campaign, id: nat, l: Loaded)
    requires GeometryAgrees(c) && |c'.db.substrates| == |c.db.substrates|
    requires c'.loaded == SetCopy(c.loaded, FirstCopy(c.loaded, id, 0), l)
    requires l.id == id && GeometryIsRows(l, c'.db.substrates)
    requires forall k :: 0 <= k < |c.db.substrates| && k != id ==> c'.db.substrates[k].geometry == c.db.substrates[k].geometry
    ensures GeometryAgrees(c')
  {
    var at := FirstCopy(c.loaded, id, 0);
    FirstCopyIsFirst(c.loaded, id, 0);
    assert forall j :: 0 <= j < |c.loaded| ==> c'.loaded[j].id == c.loaded[j].id;
    forall j: nat | j < |c'.loaded| && IsFirstCopy(c'.loaded, j) ensures GeometryIsRows(c'.loaded[j], c'.db.substrates) {
      FirstAmongSameIds(c.loaded, c'.loaded, j);
      if j != at {
        assert GeometryIsRows(c.loaded[j], c.db.substrates);
        assert c.loaded[j].id != id by {
          if at < j { assert c'.loaded[at].id != c'.loaded[j].id; }
        }
      }
    }
  }

  lemma TargetIsRow(c: Campaign, id: nat)
    requires GeometryAgrees(c) && id < |c.db.substrates|
    ensures TargetGeometry(c, id, c.db.substrates[id].geometry) == c.db.substrates[id].geometry
  {
    var at := FirstCopy(c.loaded, id, 0);
    FirstCopyIsFirst(c.loaded, id, 0);
    if at < |c.loaded| {
      assert IsFirstCopy(c.loaded, at);
      assert GeometryIsRows(c.loaded[at], c.db.substrates);
    }
  }

  lemma AppliedKeepsGeometry(c: Campaign, id: nat, edit: Edit, positions: seq<real>)
    requires GeometryAgrees(c) && id < |c.db.substrates|
    ensures GeometryAgrees(GeometryApplied(c, id, edit, positions))
  {
    TargetIsRow(c, id);
    var l := Fresh(id, edit.On(EditTarget(c, id).geometry), positions);
    CopyKeepsGeometry(c, GeometryApplied(c, id, edit, positions), id, l);
  }

  /** A refused correction keeps the copies agreeing exactly when no copy is loaded or it would have changed nothing. */
  lemma RefusalKeepsGeometryExactly(c: Campaign, id: nat, edit: Edit)
    requires GeometryAgrees(c) && id < |c.db.substrates|
    ensures GeometryAgrees(GeometryFailed(c, id, edit)) <==>
            FirstCopy(c.loaded, id, 0) == |c.loaded| || edit.On(c.db.substrates[id].geometry) == c.db.substrates[id].geometry
  {
    var at, c' := FirstCopy(c.loaded, id, 0), GeometryFailed(c, id, edit);
    FirstCopyIsFirst(c.loaded, id, 0);
    TargetIsRow(c, id);
    if at < |c.loaded| {
      if edit.On(c.db.substrates[id].geometry) == c.db.substrates[id].geometry {
        CopyKeepsGeometry(c, c', id, c'.loaded[at]);
      } else {
        assert IsFirstCopy(c'.loaded, at);
        assert !GeometryIsRows(c'.loaded[at], c'.db.substrates);
      }
    }
  }

  lemma UpdateKeepsGeometry(stage: RheedStage, c: Campaign, target: Option<nat>, edit: Edit)
    requires GeometryAgrees(c) && Updated(stage, c, target, edit).1 != Some(BadGeometry)
    ensures GeometryAgrees(Updated(stage, c, target, edit).0)
  {
    if target.Some? || c.loaded != [] {
      var id := if target.Some? then target.value else Current(c).id;
      if EditGate(c, id, edit).None? && edit.IsGeometry() {
        var g := TargetGeometry(c, id, c.db.substrates[id].geometry);
        AppliedKeepsGeometry(c, id, edit, PositionsFor(stage, edit.On(g), edit.Given()).value);
      }
    }
  }

  lemma StepKeepsGeometry(stage: RheedStage, c: Campaign, op: Op)
    requires GeometryAgrees(c) && (op.Update? ==> Updated(stage, c, op.target, op.edit).1 != Some(BadGeometry))
    ensures GeometryAgrees(Apply(stage, c, op))
  {
    var c' := Apply(stage, c, op);
    match op {
      case Register(g, given) =>
        if PositionsFor(stage, g, given).Ok? {
          PushKeepsGeometry(c, c'.db, Fresh(|c.db.substrates|, g, PositionsFor(stage, g, given).value));
        }
      case Record(_, _, _) => SamePlacesKeepGeometry(c, c');
      case Finish =>
        FinishedKeepsPlaces(c);
        SamePlacesKeepGeometry(c, c');
      case Reopen(index, force) =>
        if ReopenIndex(c, index, force).Ok? { ReopenedKeepsPlaces(c, ReopenIndex(c, index, force).value); }
        SamePlacesKeepGeometry(c, c');
      case Resume(id) => if id < |c.db.substrates| { PushKeepsGeometry(c, c'.db, Current(c')); }
      case Unload => SamePlacesKeepGeometry(c, c');
      case Retire(k, retire) =>
        if k < |c.db.growths| { RetiredKeepsPlaces(c, k, retire); }
        SamePlacesKeepGeometry(c, c');
      case Update(target, edit) => UpdateKeepsGeometry(stage, c, target, edit);
    }
  }

  /** No correction was refused for its geometry. */
  ghost predicate NoneRefused(stage: RheedStage, ops: seq<Op>) {
    ops == []
    || var before, op := ops[..|ops| - 1], ops[|ops| - 1];
       NoneRefused(stage, before) && (op.Update? ==> Updated(stage, Run(stage, before), op.target, op.edit).1 != Some(BadGeometry))
  }

  lemma {:induction false} GeometryAgreesAlways(stage: RheedStage, ops: seq<Op>)
    requires NoneRefused(stage, ops)
    ensures GeometryAgrees(Run(stage, ops))
  {
    if ops != [] {
      GeometryAgreesAlways(stage, ops[..|ops| - 1]);
      StepKeepsGeometry(stage, Run(stage, ops[..|ops| - 1]), ops[|ops| - 1]);
    }
  }

  /** In every run in which no correction was refused for its geometry, every correction stores what it would from
      the stored row. */
  lemma CorrectionsStartFromRow(stage: RheedStage, ops: seq<Op>, id: nat, edit: Edit)
    requires NoneRefused(stage, ops) && id < |Run(stage, ops).db.substrates|
    ensures StoresAsFromRow(stage, Run(stage, ops), id, edit)
  {
    GeometryAgreesAlways(stage, ops);
    TargetIsRow(Run(stage, ops), id);
    UneditedAgreeSuffices(stage, Run(stage, ops), id, edit);
  }

  /** A refused correction is not undone in memory: for any loaded substrate without growths, a width refused together
      with a zero spacing decides the positions of the next correction, while the stored width stays what it was. */
  lemma RefusedCorrectionLingers(stage: RheedStage, c: Campaign, id: nat, width: real, spacing: real)
    requires id < |c.db.substrates| && !HasGrowth(c.db.growths, id) && FirstCopy(c.loaded, id, 0) < |c.loaded| && spacing != 0.0
    ensures var refused := Updated(stage, c, Some(id), Edit(Some(width), None, Some(0.0), None));
            var c' := Updated(stage, refused.0, Some(id), Edit(None, None, Some(spacing), None)).0;
            && refused.1 == Some(BadGeometry) && refused.0.db == c.db && id < |c'.db.substrates|
            && c'.db.substrates[id] == SubstrateRow(Geometry(c.db.substrates[id].geometry.width, Some(spacing)),
                                                    Seen(stage, EvenRow(Reach(width, spacing), Abs(spacing))))
  {
    var first := Edit(Some(width), None, Some(0.0), None);
    FirstCopyIsFirst(c.loaded, id, 0);
    var refused := GeometryFailed(c, id, first);
    assert Updated(stage, c, Some(id), first) == (refused, Some(BadGeometry));
    SameFirstCopy(c.loaded, refused.loaded, id, 0);
  }

  lemma {:induction false} SameFirstCopy(a: seq<Loaded>, b: seq<Loaded>, id: nat, i: nat)
    requires |a| == |b| && i <= |a| && forall j :: 0 <= j < |a| ==> a[j].id == b[j].id
    ensures FirstCopy(a, id, i) == FirstCopy(b, id, i)
    decreases |a| - i
  {
    if i < |a| && a[i].id != id {
      SameFirstCopy(a, b, id, i + 1);
    }
  }
}
