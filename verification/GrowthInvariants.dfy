/** What every run of a campaign's operations keeps, from an empty database. */
module GrowthInvariants {
  import opened Common
  import opened Positions
  import opened GrowthHistory
  import P = SubstrateProgress

  // ----- sample rows ------------------------------------------------------------------------

  /** A row without its state. */
  function Bare(s: Sample): Sample {
    if s.Root? then s else s.(grown := false)
  }

  ghost predicate SameBare(a: seq<Sample>, b: seq<Sample>) {
    |a| == |b| && forall j :: 0 <= j < |a| ==> Bare(a[j]) == Bare(b[j])
  }

  /** A root, then one row for each position in order, carrying its index and its coordinate. */
  ghost predicate SamplesMatch(rows: seq<Sample>, positions: seq<real>) {
    SameBare(rows, [Root] + Placeholders(positions))
  }

  lemma {:induction false} MarkedIsSameBare(rows: seq<Sample>, index: nat, grown: bool)
    ensures SameBare(Marked(rows, index, grown), rows)
  {
    if rows != [] && !(rows[0].PositionSample? && rows[0].index == index) {
      MarkedIsSameBare(rows[1..], index, grown);
    }
  }

  lemma SameBareTrans(a: seq<Sample>, b: seq<Sample>, c: seq<Sample>)
    requires SameBare(a, b) && SameBare(b, c)
    ensures SameBare(a, c)
  {
  }

  lemma {:induction false} AllMarkedIsSameBare(rows: seq<Sample>, accessed: set<nat>, n: nat)
    ensures SameBare(AllMarked(rows, accessed, n), rows)
  {
    if n > 0 {
      AllMarkedIsSameBare(rows, accessed, n - 1);
      MarkedIsSameBare(AllMarked(rows, accessed, n - 1), n - 1, true);
      SameBareTrans(AllMarked(rows, accessed, n), AllMarked(rows, accessed, n - 1), rows);
    }
  }

  lemma {:induction false} NoRootsLeft(rows: seq<Sample>)
    requires forall j :: 0 <= j < |rows| ==> rows[j].PositionSample?
    ensures RootsOnly(rows) == []
  {
    if rows != [] {
      NoRootsLeft(rows[1..]);
    }
  }

  lemma RematerialisedMatch(rows: seq<Sample>, before: seq<real>, positions: seq<real>)
    requires SamplesMatch(rows, before)
    ensures SamplesMatch(Materialised(RootsOnly(rows), positions), positions)
  {
    assert Bare(rows[0]) == Root;
    forall j | 0 <= j < |rows[1..]| ensures rows[1..][j].PositionSample? {
      assert Bare(rows[j + 1]) == Bare(([Root] + Placeholders(before))[j + 1]);
    }
    NoRootsLeft(rows[1..]);
    assert RootsOnly(rows) == [Root];
  }

  /** Each pixel index below the number of positions has exactly one row, at the stored coordinate, and there is
      one root. */
  lemma EachIndexOnce(rows: seq<Sample>, positions: seq<real>)
    requires SamplesMatch(rows, positions)
    ensures |rows| == |positions| + 1 && rows[0].Root?
    ensures forall j :: 1 <= j < |rows| ==> rows[j].PositionSample? && rows[j].index == j - 1 && rows[j].position == positions[j - 1]
  {
    assert Bare(rows[0]) == Root;
    forall j | 1 <= j < |rows|
      ensures rows[j].PositionSample? && rows[j].index == j - 1 && rows[j].position == positions[j - 1]
    {
      assert Bare(rows[j]) == Bare(([Root] + Placeholders(positions))[j]);
    }
  }

  // ----- the invariant ------------------------------------------------------------------------

  ghost predicate Stored(db: Db) {
    && |db.samples| == |db.substrates|
    && forall id :: 0 <= id < |db.substrates| ==> SamplesMatch(db.samples[id], db.substrates[id].positions)
  }

  ghost predicate IsFirstCopy(loaded: seq<Loaded>, j: nat)
    requires j < |loaded|
  {
    forall k :: 0 <= k < j ==> loaded[k].id != loaded[j].id
  }

  ghost predicate AgreesWith(l: Loaded, substrates: seq<SubstrateRow>) {
    l.id < |substrates| && l.positions == substrates[l.id].positions
  }

  /** What is loaded is stored, and the first copy of each substrate has the stored positions. */
  ghost predicate LoadedAgree(c: Campaign) {
    && (forall j :: 0 <= j < |c.loaded| ==> c.loaded[j].id < |c.db.substrates|)
    && (forall j: nat :: j < |c.loaded| && IsFirstCopy(c.loaded, j) ==> AgreesWith(c.loaded[j], c.db.substrates))
  }

  ghost predicate Inv(c: Campaign) {
    Stored(c.db) && LoadedAgree(c)
  }

  lemma SetSamplesKeepsStored(db: Db, id: nat, rows: seq<Sample>)
    requires Stored(db) && (id < |db.substrates| ==> SamplesMatch(rows, db.substrates[id].positions))
    ensures Stored(SetSamples(db, id, rows)) && SetSamples(db, id, rows).substrates == db.substrates
  {
  }

  lemma MarkKeepsStored(db: Db, id: nat, index: nat, grown: bool)
    requires Stored(db)
    ensures Stored(SetSamples(db, id, Marked(SamplesOf(db, id), index, grown)))
  {
    var rows := SamplesOf(db, id);
    MarkedIsSameBare(rows, index, grown);
    if id < |db.substrates| {
      SameBareTrans(Marked(rows, index, grown), rows, [Root] + Placeholders(db.substrates[id].positions));
      SetSamplesKeepsStored(db, id, Marked(rows, index, grown));
    }
  }

  lemma FirstAmongSameIds(a: seq<Loaded>, b: seq<Loaded>, j: nat)
    requires j < |a| && j < |b| && IsFirstCopy(b, j)
    requires forall k :: 0 <= k <= j ==> a[k].id == b[k].id
    ensures IsFirstCopy(a, j)
  {
    forall k | 0 <= k < j ensures a[k].id != a[j].id {
      assert b[k].id != b[j].id;
    }
  }

  /** Substrates replaced one by one by copies with the same positions. */
  lemma SamePlacesAgree(c: Campaign, c': Campaign)
    requires LoadedAgree(c) && c'.db.substrates == c.db.substrates && |c'.loaded| <= |c.loaded|
    requires forall j :: 0 <= j < |c'.loaded| ==> c'.loaded[j].id == c.loaded[j].id && c'.loaded[j].positions == c.loaded[j].positions
    ensures LoadedAgree(c')
  {
    forall j: nat | j < |c'.loaded| && IsFirstCopy(c'.loaded, j) ensures AgreesWith(c'.loaded[j], c'.db.substrates) {
      FirstAmongSameIds(c.loaded, c'.loaded, j);
      assert AgreesWith(c.loaded[j], c.db.substrates);
    }
  }

  lemma CurrentPlaces(c: Campaign, l: Loaded)
    requires c.loaded != [] && l.id == Current(c).id && l.positions == Current(c).positions
    ensures var c' := SetCurrent(c, l);
            && c'.db == c.db && |c'.loaded| == |c.loaded|
            && forall j :: 0 <= j < |c.loaded| ==> c'.loaded[j].id == c.loaded[j].id && c'.loaded[j].positions == c.loaded[j].positions
  {
  }

  /** A change to the current substrate's progress alone keeps the loaded ones agreeing. */
  lemma ProgressKeepsAgreement(c: Campaign, l: Loaded)
    requires LoadedAgree(c) && c.loaded != [] && l.id == Current(c).id && l.positions == Current(c).positions
    ensures LoadedAgree(SetCurrent(c, l))
  {
    CurrentPlaces(c, l);
    SamePlacesAgree(c, SetCurrent(c, l));
  }

  lemma PushKeepsAgreement(c: Campaign, db: Db, l: Loaded)
    requires LoadedAgree(c) && c.db.substrates <= db.substrates && AgreesWith(l, db.substrates)
    ensures LoadedAgree(Campaign(db, c.loaded + [l]))
  {
    var c' := Campaign(db, c.loaded + [l]);
    forall j: nat | j < |c'.loaded| && IsFirstCopy(c'.loaded, j) ensures AgreesWith(c'.loaded[j], db.substrates) {
      if j < |c.loaded| {
        assert IsFirstCopy(c.loaded, j) by {
          forall k | 0 <= k < j ensures c.loaded[k].id != c.loaded[j].id {
            assert c'.loaded[k].id != c'.loaded[j].id;
          }
        }
        assert AgreesWith(c.loaded[j], c.db.substrates);
      }
    }
  }

  lemma RegisterKeeps(c: Campaign, g: Geometry, positions: seq<real>)
    requires Inv(c)
    ensures Inv(Registered(c, g, positions))
  {
    var c' := Registered(c, g, positions);
    assert SamplesMatch(Materialised([], positions), positions);
    PushKeepsAgreement(c, c'.db, Fresh(|c.db.substrates|, g, positions));
  }

  lemma FinishKeeps(c: Campaign)
    requires Inv(c)
    ensures Inv(Finished(c))
  {
    if c.loaded != [] {
      var l := Current(c);
      MarkKeepsStored(c.db, l.id, l.current, true);
      ProgressKeepsAgreement(c, l.With(P.Finish(l.Progress())));
    }
  }

  lemma ReopenKeeps(c: Campaign, i: nat)
    requires Inv(c) && c.loaded != []
    ensures Inv(Reopened(c, i))
  {
    var l := Current(c);
    MarkKeepsStored(c.db, l.id, i, false);
    ProgressKeepsAgreement(c, l.With(P.Reopen(l.Progress(), i)));
  }

  lemma ResumeKeeps(c: Campaign, id: nat)
    requires Inv(c) && id < |c.db.substrates|
    ensures Inv(Resumed(c, id))
  {
    var row := c.db.substrates[id];
    var l := Restored(Fresh(id, row.geometry, row.positions), c.db.growths);
    var rows := SamplesOf(c.db, id);
    AllMarkedIsSameBare(rows, l.accessed, |l.positions|);
    SameBareTrans(AllMarked(rows, l.accessed, |l.positions|), rows, [Root] + Placeholders(row.positions));
    SetSamplesKeepsStored(c.db, id, AllMarked(rows, l.accessed, |l.positions|));
    PushKeepsAgreement(c, Resumed(c, id).db, l);
  }

  lemma UnloadKeeps(c: Campaign)
    requires Inv(c)
    ensures Inv(Unloaded(c))
  {
    SamePlacesAgree(c, Unloaded(c));
  }

  lemma RetiredPlaces(c: Campaign, k: nat, retire: bool)
    requires k < |c.db.growths|
    ensures var c' := Retired(c, k, retire);
            && c'.db.substrates == c.db.substrates && c'.db.samples == c.db.samples && |c'.loaded| == |c.loaded|
            && forall j :: 0 <= j < |c.loaded| ==> c'.loaded[j].id == c.loaded[j].id && c'.loaded[j].positions == c.loaded[j].positions
  {
  }

  lemma RetireKeeps(c: Campaign, k: nat, retire: bool)
    requires Inv(c) && k < |c.db.growths|
    ensures Inv(Retired(c, k, retire))
  {
    RetiredPlaces(c, k, retire);
    SamePlacesAgree(c, Retired(c, k, retire));
  }

  /** Replacing the first copy of a substrate by one that agrees with its new row keeps all first copies agreeing. */
  lemma CopyKeepsAgreement(c: Campaign, id: nat, l: Loaded, db: Db)
    requires LoadedAgree(c) && l.id == id && AgreesWith(l, db.substrates) && |db.substrates| == |c.db.substrates|
    requires forall k :: 0 <= k < |db.substrates| && k != id ==> db.substrates[k].positions == c.db.substrates[k].positions
    ensures LoadedAgree(Campaign(db, SetCopy(c.loaded, FirstCopy(c.loaded, id, 0), l)))
  {
    var at := FirstCopy(c.loaded, id, 0);
    FirstCopyIsFirst(c.loaded, id, 0);
    var c' := Campaign(db, SetCopy(c.loaded, at, l));
    assert forall j :: 0 <= j < |c.loaded| ==> c'.loaded[j].id == c.loaded[j].id;
    forall j: nat | j < |c'.loaded| && IsFirstCopy(c'.loaded, j) ensures AgreesWith(c'.loaded[j], db.substrates) {
      if j != at {
        assert IsFirstCopy(c.loaded, j) by {
          forall k | 0 <= k < j ensures c.loaded[k].id != c.loaded[j].id {
            assert c'.loaded[k].id != c'.loaded[j].id;
          }
        }
        assert c.loaded[j].id != id by {
          if at < j { assert c'.loaded[at].id != c'.loaded[j].id; }
        }
      }
    }
  }

  lemma GeometryKeeps(c: Campaign, id: nat, edit: Edit, positions: seq<real>)
    requires Inv(c) && id < |c.db.substrates|
    ensures Inv(GeometryApplied(c, id, edit, positions))
  {
    var c' := GeometryApplied(c, id, edit, positions);
    RematerialisedMatch(c.db.samples[id], c.db.substrates[id].positions, positions);
    CopyKeepsAgreement(c, id, Fresh(id, edit.On(EditTarget(c, id).geometry), positions), c'.db);
  }

  lemma FailedGeometryKeeps(c: Campaign, id: nat, edit: Edit)
    requires Inv(c) && id < |c.db.substrates|
    ensures Inv(GeometryFailed(c, id, edit))
  {
    var at := FirstCopy(c.loaded, id, 0);
    FirstCopyIsFirst(c.loaded, id, 0);
    if at < |c.loaded| {
      assert IsFirstCopy(c.loaded, at);
      assert AgreesWith(c.loaded[at], c.db.substrates);
      CopyKeepsAgreement(c, id, c.loaded[at].(geometry := edit.On(c.loaded[at].geometry)), c.db);
    }
  }

  lemma EditKeeps(stage: RheedStage, c: Campaign, id: nat, edit: Edit, g: Geometry)
    requires Inv(c) && id < |c.db.substrates|
    ensures Inv(EditAppliedUsing(stage, c, id, edit, g).0)
  {
    if edit.IsGeometry() {
      match PositionsFor(stage, edit.On(g), edit.Given()) {
        case Ok(positions) => GeometryKeeps(c, id, edit, positions);
        case Err(_) => FailedGeometryKeeps(c, id, edit);
      }
    }
  }

  lemma UpdateKeeps(stage: RheedStage, c: Campaign, target: Option<nat>, edit: Edit)
    requires Inv(c)
    ensures Inv(Updated(stage, c, target, edit).0)
  {
    if target.Some? || c.loaded != [] {
      var id := if target.Some? then target.value else Current(c).id;
      if EditGate(c, id, edit).None? {
        EditKeeps(stage, c, id, edit, TargetGeometry(c, id, c.db.substrates[id].geometry));
      }
    }
  }

  lemma StepKeeps(stage: RheedStage, c: Campaign, op: Op)
    requires Inv(c)
    ensures Inv(Apply(stage, c, op))
  {
    match op {
      case Register(g, given) =>
        if PositionsFor(stage, g, given).Ok? { RegisterKeeps(c, g, PositionsFor(stage, g, given).value); }
      case Record(_, _, _) =>
      case Finish => FinishKeeps(c);
      case Reopen(index, force) =>
        if ReopenIndex(c, index, force).Ok? { ReopenKeeps(c, ReopenIndex(c, index, force).value); }
      case Resume(id) => if id < |c.db.substrates| { ResumeKeeps(c, id); }
      case Unload => UnloadKeeps(c);
      case Retire(k, retire) => if k < |c.db.growths| { RetireKeeps(c, k, retire); }
      case Update(target, edit) => UpdateKeeps(stage, c, target, edit);
    }
  }

  lemma {:induction false} InvAlways(stage: RheedStage, ops: seq<Op>)
    ensures Inv(Run(stage, ops))
  {
    if ops != [] {
      InvAlways(stage, ops[..|ops| - 1]);
      StepKeeps(stage, Run(stage, ops[..|ops| - 1]), ops[|ops| - 1]);
    }
  }

  /** In every run, the rows of a substrate are one root and each pixel index once, at its stored coordinate. */
  lemma SamplesCarryEachIndexOnce(stage: RheedStage, ops: seq<Op>, id: nat)
    requires id < |Run(stage, ops).db.substrates|
    ensures var db := Run(stage, ops).db;
            && id < |db.samples| && |db.samples[id]| == |db.substrates[id].positions| + 1 && db.samples[id][0].Root?
            && forall j :: 1 <= j < |db.samples[id]| ==>
                 && db.samples[id][j].PositionSample? && db.samples[id][j].index == j - 1
                 && db.samples[id][j].position == db.substrates[id].positions[j - 1]
  {
    InvAlways(stage, ops);
    EachIndexOnce(Run(stage, ops).db.samples[id], Run(stage, ops).db.substrates[id].positions);
  }

  // ----- progress recomputed from the growths ------------------------------------------------------

  /** Progress as the stored growths alone tell it: an index is spent exactly when a live growth used it, and
      the current one is the least that is not, or the end. */
  ghost predicate TellsHistory(l: Loaded, db: Db) {
    && AgreesWith(l, db.substrates)
    && (forall i: nat :: i in l.accessed <==> i < |l.positions| && HasLiveGrowth(db.growths, l.id, i))
    && l.current <= |l.positions| && l.current !in l.accessed
    && (forall i: nat :: i < l.current ==> i in l.accessed)
  }

  lemma RestoredTellsHistory(l: Loaded, db: Db)
    requires AgreesWith(l, db.substrates)
    ensures TellsHistory(Restored(l, db.growths), db)
  {
    var r := Restored(l, db.growths);
    P.RestoreLandsOnLeastFree(l.Progress(), Used(db.growths, l.id));
    forall i: nat ensures i in r.accessed <==> i < |l.positions| && HasLiveGrowth(db.growths, l.id, i) {
      UsedIsLive(db.growths, l.id, i);
    }
  }

  /** After resuming, the current substrate's progress is what its live growths say, whatever was finished or
      reopened before. */
  lemma ResumeTellsHistory(c: Campaign, id: nat)
    requires id < |c.db.substrates|
    ensures Resumed(c, id).loaded != [] && TellsHistory(Current(Resumed(c, id)), Resumed(c, id).db)
  {
    var row := c.db.substrates[id];
    RestoredTellsHistory(Fresh(id, row.geometry, row.positions), c.db);
    var l, db' := Restored(Fresh(id, row.geometry, row.positions), c.db.growths), Resumed(c, id).db;
    assert db'.substrates == c.db.substrates && db'.growths == c.db.growths;
    assert Current(Resumed(c, id)) == l;
  }

  /** The current substrate is loaded only once. */
  ghost predicate CurrentLoadedOnce(c: Campaign) {
    c.loaded != [] && IsFirstCopy(c.loaded, |c.loaded| - 1)
  }

  lemma RetireRestores(c: Campaign, k: nat, retire: bool)
    requires k < |c.db.growths| && c.loaded != [] && AgreesWith(Current(c), c.db.substrates)
    requires Current(c).id == c.db.growths[k].substrate
    ensures TellsHistory(Current(Retired(c, k, retire)), Retired(c, k, retire).db)
  {
    RestoredTellsHistory(Current(c), Retired(c, k, retire).db);
  }

  /** In every run, a current substrate that is loaded only once has the stored positions. */
  lemma CurrentAgrees(stage: RheedStage, ops: seq<Op>)
    requires CurrentLoadedOnce(Run(stage, ops))
    ensures AgreesWith(Current(Run(stage, ops)), Run(stage, ops).db.substrates)
  {
    InvAlways(stage, ops);
    OnceAgrees(Run(stage, ops));
  }

  lemma OnceAgrees(c: Campaign)
    requires LoadedAgree(c) && CurrentLoadedOnce(c)
    ensures AgreesWith(Current(c), c.db.substrates)
  {
  }

  lemma RunOneMore(stage: RheedStage, ops: seq<Op>, op: Op)
    ensures Run(stage, ops + [op]) == Apply(stage, Run(stage, ops), op)
  {
    assert (ops + [op])[..|ops|] == ops;
  }

  /** In every run, retiring or reinstating a growth of the current substrate leaves its progress what the live
      growths say, if that substrate is loaded only once. */
  lemma RetireTellsHistory(stage: RheedStage, ops: seq<Op>, k: nat, retire: bool)
    requires var c := Run(stage, ops);
             k < |c.db.growths| && CurrentLoadedOnce(c) && Current(c).id == c.db.growths[k].substrate
    ensures var c' := Run(stage, ops + [Retire(k, retire)]);
            c'.loaded != [] && TellsHistory(Current(c'), c'.db)
  {
    CurrentAgrees(stage, ops);
    RunOneMore(stage, ops, Retire(k, retire));
    RetireRestores(Run(stage, ops), k, retire);
  }

  /** An index is handed back by retiring a growth exactly when no other live growth used it. */
  lemma RetireHandsBackExactly(c: Campaign, k: nat, index: nat)
    requires k < |c.db.growths| && c.loaded != [] && AgreesWith(Current(c), c.db.substrates)
    requires Current(c).id == c.db.growths[k].substrate && UsedBy(c.db.growths[k]) == Some(index) && index < |Current(c).positions|
    ensures index !in Current(Retired(c, k, true)).accessed <==>
            forall m :: 0 <= m < |c.db.growths| && m != k && c.db.growths[m].substrate == Current(c).id && !c.db.growths[m].retired ==>
              UsedBy(c.db.growths[m]) != Some(index)
  {
    RetireRestores(c, k, true);
    var growths, growths' := c.db.growths, Retired(c, k, true).db.growths;
    assert forall m :: 0 <= m < |growths| && m != k ==> growths'[m] == growths[m];
    if HasLiveGrowth(growths', Current(c).id, index) {
      var m :| 0 <= m < |growths'| && growths'[m].substrate == Current(c).id && !growths'[m].retired && UsedBy(growths'[m]) == Some(index);
      assert growths[m] == growths'[m];
    }
  }

  // ----- reopening -----------------------------------------------------------------------------------

  /** A reopening that is not forced hands back no index a live growth used, and no index but the one it names. */
  lemma ReopenKeepsGrown(c: Campaign, index: Option<int>, i: nat)
    requires ReopenIndex(c, index, false).Ok?
    ensures var c' := Reopened(c, ReopenIndex(c, index, false).value);
            (i in Current(c).accessed && HasLiveGrowth(c.db.growths, Current(c).id, i) ==> i in Current(c').accessed)
    ensures var c' := Reopened(c, ReopenIndex(c, index, false).value);
            (i in Current(c).accessed && i !in Current(c').accessed ==> i == ReopenIndex(c, index, false).value)
  {
    UsedIsLive(c.db.growths, Current(c).id, i);
  }

  /** A forced one does not survive resuming: the growth still stands. */
  lemma ForcedReopenIsOverruled(c: Campaign, i: nat)
    requires c.loaded != [] && Current(c).id < |c.db.substrates| && i < |c.db.substrates[Current(c).id].positions|
    requires HasLiveGrowth(c.db.growths, Current(c).id, i)
    ensures i !in Current(Reopened(c, i)).accessed
    ensures i in Current(Resumed(Reopened(c, i), Current(c).id)).accessed
  {
    var c' := Reopened(c, i);
    assert c'.db.growths == c.db.growths && c'.db.substrates == c.db.substrates;
    ResumeTellsHistory(c', Current(c).id);
    assert Current(Resumed(c', Current(c).id)).id == Current(c).id;
  }

  // ----- sample states ---------------------------------------------------------------------------------

  lemma FinishMarks(c: Campaign)
    requires Inv(c)
    requires c.loaded != [] && Current(c).id < |c.db.substrates| && Current(c).current < |c.db.substrates[Current(c).id].positions|
    ensures var l := Current(c);
            var rows := SamplesOf(Finished(c).db, l.id);
            l.current + 1 < |rows| && rows[l.current + 1] == PositionSample(l.current, c.db.substrates[l.id].positions[l.current], true)
  {
    var l := Current(c);
    EachIndexOnce(c.db.samples[l.id], c.db.substrates[l.id].positions);
    MarkedMarks(c.db.samples[l.id], l.current, true, l.current + 1);
  }

  /** Finishing a position marks its sample row grown. */
  lemma FinishMarksSample(stage: RheedStage, ops: seq<Op>)
    requires var c := Run(stage, ops);
             c.loaded != [] && Current(c).id < |c.db.substrates| && Current(c).current < |c.db.substrates[Current(c).id].positions|
    ensures var c := Run(stage, ops);
            var l := Current(c);
            var rows := SamplesOf(Finished(c).db, l.id);
            l.current + 1 < |rows| && rows[l.current + 1] == PositionSample(l.current, c.db.substrates[l.id].positions[l.current], true)
  {
    InvAlways(stage, ops);
    FinishMarks(Run(stage, ops));
  }

  lemma RecordThenFinish(c: Campaign, id: nat, i: nat)
    requires c.loaded != []
    ensures var c' := Finished(Recorded(c, id, true, Some(i)));
            && c'.loaded != [] && Current(c').id == Current(c).id && Current(c').positions == Current(c).positions
            && c'.db.substrates == c.db.substrates && c'.db.growths == c.db.growths + [Growth(id, true, Some(i), false)]
  {
  }

  /** Retiring the last growth frees its index if no live growth before it used that index. */
  lemma RetireFrees(c: Campaign, before: seq<Growth>, i: nat)
    requires c.loaded != [] && AgreesWith(Current(c), c.db.substrates) && i < |Current(c).positions|
    requires c.db.growths == before + [Growth(Current(c).id, true, Some(i), false)] && !HasLiveGrowth(before, Current(c).id, i)
    ensures var c' := Retired(c, |before|, true);
            c'.loaded != [] && Current(c').id == Current(c).id && i !in Current(c').accessed && c'.db.samples == c.db.samples
  {
    RetireHandsBackExactly(c, |before|, i);
    forall m | 0 <= m < |before| && before[m].substrate == Current(c).id && !before[m].retired
      ensures UsedBy(before[m]) != Some(i)
    {
    }
    assert forall m :: 0 <= m < |before| ==> c.db.growths[m] == before[m];
  }

  /** Its current position recorded as grown, finished, and that growth retired again. */
  function GrownAndRetired(c: Campaign): Campaign
    requires c.loaded != []
  {
    Retired(Finished(Recorded(c, Current(c).id, true, Some(Current(c).current))), |c.db.growths|, true)
  }

  /** The position that was current on a loaded substrate is free on it, and its sample row says grown. */
  ghost predicate IsFreeButMarked(c: Campaign, l: Loaded)
    requires l.current < |l.positions|
  {
    var rows := SamplesOf(c.db, l.id);
    && c.loaded != [] && Current(c).id == l.id && l.current !in Current(c).accessed
    && l.current + 1 < |rows| && rows[l.current + 1] == PositionSample(l.current, l.positions[l.current], true)
  }

  /** If no live growth used the position before, it is then free, and its sample row still says grown. */
  lemma RetireLeavesMarked(c: Campaign)
    requires Inv(c) && CurrentLoadedOnce(c) && Current(c).current < |Current(c).positions|
    requires !HasLiveGrowth(c.db.growths, Current(c).id, Current(c).current)
    ensures IsFreeButMarked(GrownAndRetired(c), Current(c))
  {
    var l := Current(c);
    var recorded := Recorded(c, l.id, true, Some(l.current));
    OnceAgrees(c);
    RecordThenFinish(c, l.id, l.current);
    RetireFrees(Finished(recorded), c.db.growths, l.current);
    FinishMarks(recorded);
  }

  /** In every run: a position recorded as grown, finished, and its growth retired again, of a substrate loaded once
      and without another live growth there, is free while its sample row still says grown. */
  lemma RetireLeavesSampleMarked(stage: RheedStage, ops: seq<Op>)
    requires var c := Run(stage, ops);
             && CurrentLoadedOnce(c) && Current(c).current < |Current(c).positions|
             && !HasLiveGrowth(c.db.growths, Current(c).id, Current(c).current)
    ensures var c, l := Run(stage, ops), Current(Run(stage, ops));
            IsFreeButMarked(Run(stage, ops + [Record(l.id, true, Some(l.current))] + [Finish] + [Retire(|c.db.growths|, true)]), l)
  {
    var c := Run(stage, ops);
    var record := Record(Current(c).id, true, Some(Current(c).current));
    InvAlways(stage, ops);
    RetireLeavesMarked(c);
    RunOneMore(stage, ops, record);
    RunOneMore(stage, ops + [record], Finish);
    RunOneMore(stage, ops + [record] + [Finish], Retire(|c.db.growths|, true));
  }

  lemma MarkedMatched(rows: seq<Sample>, positions: seq<real>, index: nat)
    requires SamplesMatch(rows, positions) && index < |positions|
    ensures index + 1 < |rows| && rows[index + 1].PositionSample?
    ensures Marked(rows, index, true) == rows[index + 1 := rows[index + 1].(grown := true)]
  {
    EachIndexOnce(rows, positions);
    MarkedMarks(rows, index, true, index + 1);
  }

  lemma {:induction false} AllMarkedMarks(rows: seq<Sample>, positions: seq<real>, accessed: set<nat>, n: nat, i: nat)
    requires SamplesMatch(rows, positions) && n <= |positions| && i < |positions|
    ensures var r := AllMarked(rows, accessed, n);
            r[i + 1] == if i < n && i in accessed then PositionSample(i, positions[i], true) else rows[i + 1]
  {
    EachIndexOnce(rows, positions);
    if n > 0 {
      AllMarkedMarks(rows, positions, accessed, n - 1, i);
      AllMarkedIsSameBare(rows, accessed, n - 1);
      var r := AllMarked(rows, accessed, n - 1);
      SameBareTrans(r, rows, [Root] + Placeholders(positions));
      EachIndexOnce(r, positions);
      MarkedMatched(r, positions, n - 1);
    }
  }

  /** Resuming marks the sample row of every spent index grown and leaves the others as they were. */
  lemma ResumeMarksSpent(stage: RheedStage, ops: seq<Op>, id: nat, i: nat)
    requires var c := Run(stage, ops); id < |c.db.substrates| && i < |c.db.substrates[id].positions|
    ensures var c := Run(stage, ops);
            var rows, rows' := SamplesOf(c.db, id), SamplesOf(Resumed(c, id).db, id);
            && i + 1 < |rows| && i + 1 < |rows'|
            && rows'[i + 1] == if HasLiveGrowth(c.db.growths, id, i) then PositionSample(i, c.db.substrates[id].positions[i], true) else rows[i + 1]
  {
    var c := Run(stage, ops);
    InvAlways(stage, ops);
    var row := c.db.substrates[id];
    EachIndexOnce(c.db.samples[id], row.positions);
    var l := Restored(Fresh(id, row.geometry, row.positions), c.db.growths);
    RestoredTellsHistory(Fresh(id, row.geometry, row.positions), c.db);
    AllMarkedMarks(c.db.samples[id], row.positions, l.accessed, |row.positions|, i);
  }

  // ----- several copies --------------------------------------------------------------------------------

  /** A geometry correction sets the first loaded copy; another copy agrees afterwards exactly when it already had
      the new positions. */
  lemma CorrectionReachesFirstCopy(c: Campaign, id: nat, edit: Edit, positions: seq<real>, j: nat)
    requires LoadedAgree(c) && id < |c.db.substrates| && j < |c.loaded| && c.loaded[j].id == id
    ensures var c' := GeometryApplied(c, id, edit, positions);
            && j < |c'.loaded|
            && (AgreesWith(c'.loaded[j], c'.db.substrates) <==> IsFirstCopy(c.loaded, j) || c.loaded[j].positions == positions)
  {
    FirstCopyIsFirst(c.loaded, id, 0);
    var at := FirstCopy(c.loaded, id, 0);
    if at != j {
      assert at < j && c.loaded[at].id == c.loaded[j].id;
    } else {
      assert IsFirstCopy(c.loaded, j);
    }
  }

  // ----- what each operation does ------------------------------------------------------------------------

  /** Everything but the substrate on top is as it was. */
  ghost predicate OnlyTopChanged(c: Campaign, c': Campaign) {
    && |c'.loaded| == |c.loaded| > 0 && c'.loaded[..|c.loaded| - 1] == c.loaded[..|c.loaded| - 1]
    && Current(c').id == Current(c).id && Current(c').geometry == Current(c).geometry && Current(c').positions == Current(c).positions
    && c'.db.growths == c.db.growths && c'.db.substrates == c.db.substrates && |c'.db.samples| == |c.db.samples|
    && forall id :: 0 <= id < |c.db.samples| && id != Current(c).id ==> c'.db.samples[id] == c.db.samples[id]
  }

  /** The one sample row of an index has this state and the others are as they were. */
  ghost predicate RowSet(before: seq<Sample>, after: seq<Sample>, positions: seq<real>, index: nat, grown: bool)
    requires index < |positions|
  {
    && |after| == |before| && index + 1 < |after| && after[index + 1] == PositionSample(index, positions[index], grown)
    && forall j :: 0 <= j < |before| && j != index + 1 ==> after[j] == before[j]
  }

  lemma MarkSetsRow(rows: seq<Sample>, positions: seq<real>, index: nat, grown: bool)
    requires SamplesMatch(rows, positions) && index < |positions|
    ensures RowSet(rows, Marked(rows, index, grown), positions, index, grown)
  {
    EachIndexOnce(rows, positions);
    MarkedMarks(rows, index, grown, index + 1);
  }

  /** Finishing spends the current index and moves on by one, sets the index's sample row grown, and does nothing else. */
  lemma FinishExactly(stage: RheedStage, c: Campaign)
    requires Inv(c) && c.loaded != []
    ensures var c', l := Apply(stage, c, Finish), Current(c);
            && OnlyTopChanged(c, c')
            && Current(c').accessed == l.accessed + {l.current} && Current(c').current == l.current + 1
            && (l.current < |c.db.substrates[l.id].positions| ==>
                  RowSet(c.db.samples[l.id], c'.db.samples[l.id], c.db.substrates[l.id].positions, l.current, true))
  {
    var l := Current(c);
    if l.current < |c.db.substrates[l.id].positions| {
      MarkSetsRow(c.db.samples[l.id], c.db.substrates[l.id].positions, l.current, true);
    }
  }

  /** Reopening frees the index meant, makes it current unless an earlier one was, sets its sample row not grown, and does
      nothing else. */
  lemma ReopenedExactly(stage: RheedStage, c: Campaign, index: Option<int>, force: bool, i: nat)
    requires Inv(c) && ReopenIndex(c, index, force) == Ok(i)
    ensures var c', l := Apply(stage, c, Reopen(index, force)), Current(c);
            && OnlyTopChanged(c, c')
            && Current(c').accessed == l.accessed - {i} && Current(c').current == (if i < l.current then i else l.current)
            && (i < |c.db.substrates[l.id].positions| ==>
                  RowSet(c.db.samples[l.id], c'.db.samples[l.id], c.db.substrates[l.id].positions, i, false))
  {
    var l := Current(c);
    if i < |c.db.substrates[l.id].positions| {
      MarkSetsRow(c.db.samples[l.id], c.db.substrates[l.id].positions, i, false);
    }
  }

  /** The index a reopening is about: the one named, or the greatest one spent. */
  predicate IsMeant(l: Loaded, index: Option<int>, i: int) {
    match index
    case Some(named) => i == named
    case None => i >= 0 && P.IsGreatest(l.accessed, i)
  }

  /** A reopening is refused without a substrate, without an index named or spent, for an index that is not one of the
      substrate's, and, unless forced, for one that a growth still stands on; and otherwise takes the index meant. */
  lemma ReopenIndexExactly(stage: RheedStage, c: Campaign, index: Option<int>, force: bool, i: int)
    ensures ReopenIndex(c, index, force).Err? ==> Apply(stage, c, Reopen(index, force)) == c
    ensures ReopenIndex(c, index, force) == Err(NoCurrent) <==> c.loaded == []
    ensures c.loaded != [] ==>
              (ReopenIndex(c, index, force) == Err(NothingFinished) <==> index.None? && Current(c).accessed == {})
    ensures c.loaded != [] && IsMeant(Current(c), index, i) ==>
              ReopenIndex(c, index, force) ==
              if !(0 <= i < |Current(c).positions|) then Err(OutOfRange)
              else if !force && exists k :: 0 <= k < |c.db.growths| && UsesUp(c.db.growths[k], Current(c).id, i) then Err(Spent)
              else Ok(i)
  {
    if c.loaded != [] {
      UsedExactly(c.db.growths, Current(c).id, i);
    }
  }

  lemma NothingGrown(positions: seq<real>, j: nat)
    requires j < |Materialised([], positions)|
    ensures !(Materialised([], positions)[j].PositionSample? && Materialised([], positions)[j].grown)
  {
  }

  /** A registered substrate is the newest one, on top, with the row and positions asked for, nothing spent and nothing
      grown; every other substrate is as it was. */
  lemma RegisterExactly(stage: RheedStage, c: Campaign, g: Geometry, given: seq<real>)
    requires |c.db.samples| == |c.db.substrates|
    ensures PositionsFor(stage, g, given).Err? ==> Apply(stage, c, Register(g, given)) == c
    ensures PositionsFor(stage, g, given).Ok? ==>
            var c', id, positions := Apply(stage, c, Register(g, given)), |c.db.substrates|, PositionsFor(stage, g, given).value;
            && c'.db.substrates == c.db.substrates + [SubstrateRow(g, positions)] && c'.db.growths == c.db.growths
            && |c'.db.samples| == id + 1 && c'.db.samples[..id] == c.db.samples
            && (forall j :: 0 <= j < |c'.db.samples[id]| && c'.db.samples[id][j].PositionSample? ==> !c'.db.samples[id][j].grown)
            && c'.loaded == c.loaded + [Loaded(id, g, positions, {}, 0)]
  {
    if PositionsFor(stage, g, given).Ok? {
      var positions := PositionsFor(stage, g, given).value;
      forall j: nat | j < |Materialised([], positions)| && Materialised([], positions)[j].PositionSample?
        ensures !Materialised([], positions)[j].grown
      {
        NothingGrown(positions, j);
      }
    }
  }

  /** Unloading takes back what registering or resuming put on top. */
  lemma UnloadUndoes(stage: RheedStage, c: Campaign, g: Geometry, positions: seq<real>, id: nat)
    requires id < |c.db.substrates|
    ensures Unloaded(Registered(c, g, positions)).loaded == c.loaded && Unloaded(Resumed(c, id)).loaded == c.loaded
    ensures Apply(stage, c, Unload) == Unloaded(c) && Unloaded(c).db == c.db && (c.loaded == [] ==> Unloaded(c) == c)
  {
  }

  /** Resuming puts a copy of the stored substrate on top, and changes no row and no growth. */
  lemma ResumeExactly(stage: RheedStage, c: Campaign, id: nat)
    requires id < |c.db.substrates|
    ensures Resumed(c, id) == Apply(stage, c, Resume(id))
    ensures var c' := Apply(stage, c, Resume(id));
            && c'.db.growths == c.db.growths && c'.db.substrates == c.db.substrates
            && |c'.loaded| == |c.loaded| + 1 && c'.loaded[..|c.loaded|] == c.loaded
            && Current(c').id == id && Current(c').geometry == c.db.substrates[id].geometry
            && Current(c').positions == c.db.substrates[id].positions
            && forall k :: 0 <= k < |c.db.samples| && k != id ==> c'.db.samples[k] == c.db.samples[k]
  {
  }

  /** Recording adds one growth that stands, and so uses up its pixel, or the first index if it was not a pixel. */
  lemma RecordExactly(stage: RheedStage, c: Campaign, substrate: nat, isPixel: bool, location: Option<int>, id: nat, index: int)
    ensures var c' := Apply(stage, c, Record(substrate, isPixel, location));
            && c'.loaded == c.loaded && c'.db.substrates == c.db.substrates && c'.db.samples == c.db.samples
            && (index in Used(c'.db.growths, id) <==>
                index in Used(c.db.growths, id) || (id == substrate && if isPixel then location == Some(index) else index == 0))
  {
    var growths, growths' := c.db.growths, Recorded(c, substrate, isPixel, location).db.growths;
    assert growths'[..|growths| ] == growths;
  }

  /** Retiring or reinstating changes that growth alone, and what is loaded only if it is the substrate on top. */
  lemma RetireExactly(stage: RheedStage, c: Campaign, k: nat, retire: bool)
    requires k < |c.db.growths|
    ensures var c' := Apply(stage, c, Retire(k, retire));
            && c'.db.substrates == c.db.substrates && c'.db.samples == c.db.samples
            && c'.db.growths == c.db.growths[k := c.db.growths[k].(retired := retire)]
            && (c.loaded == [] || Current(c).id != c.db.growths[k].substrate ==> c'.loaded == c.loaded)
            && |c'.loaded| == |c.loaded| && (c.loaded != [] ==> c'.loaded[..|c.loaded| - 1] == c.loaded[..|c.loaded| - 1])
  {
  }

  /** The edit names a width, a height, a spacing or positions. */
  predicate NamesGeometry(edit: Edit) {
    edit.width != None || edit.height != None || edit.spacing != None || edit.positions != None
  }

  /** A correction is refused without a substrate, for one that is not stored, and, if it is one of geometry, for one with
      any growth, retired or not. */
  lemma CorrectionRefusedExactly(stage: RheedStage, c: Campaign, target: Option<nat>, edit: Edit)
    ensures Apply(stage, c, Update(target, edit)) == Updated(stage, c, target, edit).0
    ensures var refusal := Updated(stage, c, target, edit).1;
            && (refusal == Some(NoCurrent) <==> target == None && c.loaded == [])
            && (target.Some? || c.loaded != [] ==>
                var id := if target.Some? then target.value else Current(c).id;
                && (refusal == Some(Unknown) <==> id >= |c.db.substrates|)
                && (refusal == Some(AlreadyGrown) <==>
                    id < |c.db.substrates| && NamesGeometry(edit) && exists k :: 0 <= k < |c.db.growths| && c.db.growths[k].substrate == id))
  {
  }

  /** One that is applied starts its substrate over: the row is edited and takes the positions, nothing is spent or
      grown, and no other substrate is touched. */
  lemma CorrectionExactly(c: Campaign, id: nat, edit: Edit, positions: seq<real>)
    requires Inv(c) && id < |c.db.substrates|
    ensures var c', row := GeometryApplied(c, id, edit, positions), c.db.substrates[id].geometry;
            && c'.db.growths == c.db.growths && |c'.db.samples| == |c.db.samples| && |c'.loaded| == |c.loaded|
            && c'.db.substrates == c.db.substrates[id := SubstrateRow(Geometry(
                 if edit.width.Some? then edit.width.value else row.width, if edit.spacing.Some? then edit.spacing else row.spacing), positions)]
            && (forall k :: 0 <= k < |c.db.samples| && k != id ==> c'.db.samples[k] == c.db.samples[k])
            && (forall j :: 0 <= j < |c'.db.samples[id]| && c'.db.samples[id][j].PositionSample? ==> !c'.db.samples[id][j].grown)
            && (forall j: nat :: j < |c.loaded| ==>
                  if IsFirstCopy(c.loaded, j) && c.loaded[j].id == id then
                    c'.loaded[j].positions == positions && c'.loaded[j].accessed == {} && c'.loaded[j].current == 0
                  else c'.loaded[j] == c.loaded[j])
  {
    var c' := GeometryApplied(c, id, edit, positions);
    var at := FirstCopy(c.loaded, id, 0);
    FirstCopyIsFirst(c.loaded, id, 0);
    RootsAreKept(c.db.samples[id], c.db.substrates[id].positions);
    forall j: nat | j < |c.loaded|
      ensures if IsFirstCopy(c.loaded, j) && c.loaded[j].id == id then
                c'.loaded[j].positions == positions && c'.loaded[j].accessed == {} && c'.loaded[j].current == 0
              else c'.loaded[j] == c.loaded[j]
    {
      if at < |c.loaded| { assert IsFirstCopy(c.loaded, at); }
    }
  }

  /** The positions a correction stores: those it gives, or else the ones of the edited geometry of the copy, as far as the
      stage reaches; it is refused exactly when it gives none and the spacing comes out as zero. */
  lemma CorrectionStores(stage: RheedStage, c: Campaign, id: nat, edit: Edit)
    requires EditGate(c, id, edit) == None && NamesGeometry(edit)
    ensures var fetched := c.db.substrates[id].geometry;
            var g := edit.On(TargetGeometry(c, id, fetched));
            var gives := edit.positions.Some? && edit.positions.value != [];
            var out := Updated(stage, c, Some(id), edit);
            && (out.1 == Some(BadGeometry) <==> !gives && g.spacing == Some(0.0))
            && (out.1 == Some(BadGeometry) ==> out.0.db == c.db)
            && (out.1 != Some(BadGeometry) ==>
                  && out.1 == None && id < |out.0.db.substrates|
                  && out.0.db.substrates[id].positions ==
                     if gives then Seen(stage, edit.positions.value) else Seen(stage, ComputedPositions(g).value))
  {
  }

  lemma RootsAreKept(rows: seq<Sample>, positions: seq<real>)
    requires SamplesMatch(rows, positions)
    ensures RootsOnly(rows) == [Root]
  {
    EachIndexOnce(rows, positions);
    assert rows[0] == Root;
    NoRootsLeft(rows[1..]);
  }
}
