/** The growth database and the manager that keeps the loaded substrates in step with it: each operation, in
    place, against the campaign's specification (src/lumi/experiment/manager.py, lines 308-563;
    src/lumi/experiment/db.py, lines 655-860). */
module GrowthManager {
  import opened Common
  import opened Positions
  import opened SubstrateProgress
  import H = GrowthHistory

  class GrowthDB {
    var substrates: seq<H.SubstrateRow>
    var samples: seq<seq<H.Sample>>
    var growths: seq<H.Growth>

    function View(): H.Db
      reads this
    {
      H.Db(substrates, samples, growths)
    }

    constructor ()
      ensures View() == H.EMPTY.db
    {
      substrates, samples, growths := [], [], [];
    }

    method AddSubstrate(g: Geometry, positions: seq<real>) returns (id: nat)
      modifies this
      ensures id == old(|substrates|)
      ensures substrates == old(substrates) + [H.SubstrateRow(g, positions)] && samples == old(samples) + [[]]
      ensures growths == old(growths)
    {
      id := |substrates|;
      substrates, samples := substrates + [H.SubstrateRow(g, positions)], samples + [[]];
    }

    method AddSample(id: nat, row: H.Sample)
      requires id < |samples|
      modifies this`samples
      ensures samples == old(samples)[id := old(samples)[id] + [row]]
    {
      samples := samples[id := samples[id] + [row]];
    }

    /** The place of a position's sample row among its substrate's. */
    method FindSample(id: nat, index: nat) returns (at: Option<nat>)
      requires id < |samples|
      ensures at.Some? ==> at.value < |samples[id]| && H.IsRowOf(samples[id][at.value], index)
      ensures forall j :: 0 <= j < (if at.Some? then at.value else |samples[id]|) ==> !H.IsRowOf(samples[id][j], index)
    {
      var rows := samples[id];
      var j := 0;
      while j < |rows|
        invariant j <= |rows| && forall m :: 0 <= m < j ==> !H.IsRowOf(rows[m], index)
      {
        if H.IsRowOf(rows[j], index) {
          return Some(j);
        }
        j := j + 1;
      }
      return None;
    }

    /** Finds the sample row of one position and sets its state. */
    method MarkSample(id: nat, index: nat, grown: bool)
      requires id < |samples|
      modifies this`samples
      ensures samples == old(samples)[id := H.Marked(old(samples)[id], index, grown)]
    {
      var at := FindSample(id, index);
      ghost var rows := samples[id];
      if at.Some? {
        H.MarkedMarks(rows, index, grown, at.value);
        samples := samples[id := samples[id][at.value := samples[id][at.value].(grown := grown)]];
      } else {
        H.MarkedMissing(rows, index, grown);
      }
    }

    method UsedPixelIndices(id: nat) returns (used: set<int>)
      ensures used == H.Used(growths, id)
    {
      used := {};
      var k := 0;
      while k < |growths|
        invariant k <= |growths|
        invariant used == H.Used(growths[..k], id)
      {
        var row := growths[k];
        assert growths[..k + 1][..k] == growths[..k];
        if row.substrate == id && !row.retired {
          if row.isPixel && row.location.Some? {
            used := used + {row.location.value};
          } else if !row.isPixel {
            used := used + {0};
          }
        }
        k := k + 1;
      }
      assert growths[..k] == growths;
    }

    method CountExperiments(id: nat) returns (n: nat)
      ensures n > 0 <==> H.HasGrowth(growths, id)
    {
      n := 0;
      var k := 0;
      while k < |growths|
        invariant k <= |growths|
        invariant n > 0 <==> exists m :: 0 <= m < k && growths[m].substrate == id
      {
        if growths[k].substrate == id {
          n := n + 1;
        }
        k := k + 1;
      }
    }

    method DeletePositionSamples(id: nat)
      requires id < |samples|
      modifies this`samples
      ensures samples == old(samples)[id := H.RootsOnly(old(samples)[id])]
    {
      var rows := samples[id];
      var kept: seq<H.Sample> := [];
      var j := 0;
      while j < |rows|
        invariant j <= |rows|
        invariant samples == old(samples)
        invariant kept + H.RootsOnly(rows[j..]) == H.RootsOnly(rows)
      {
        assert rows[j..][1..] == rows[j + 1..];
        if rows[j].Root? {
          kept := kept + [rows[j]];
        }
        j := j + 1;
      }
      assert rows[j..] == [] && kept + [] == kept;
      assert kept == H.RootsOnly(rows);
      samples := samples[id := kept];
    }

    method AddExperiment(substrate: nat, isPixel: bool, location: Option<int>) returns (k: nat)
      modifies this`growths
      ensures k == old(|growths|) && growths == old(growths) + [H.Growth(substrate, isPixel, location, false)]
    {
      k := |growths|;
      growths := growths + [H.Growth(substrate, isPixel, location, false)];
    }

    method SetGrowthState(k: nat, retired: bool)
      requires k < |growths|
      modifies this`growths
      ensures growths == old(growths)[k := old(growths)[k].(retired := retired)]
    {
      growths := growths[k := growths[k].(retired := retired)];
    }

    method UpdateSubstrate(id: nat, row: H.SubstrateRow)
      requires id < |substrates|
      modifies this`substrates
      ensures substrates == old(substrates)[id := row]
    {
      substrates := substrates[id := row];
    }
  }

  function LoadedOf(s: Substrate): H.Loaded
    reads s
  {
    H.Loaded(s.dbId, s.geometry, s.positions, s.accessed, s.current)
  }

  function AllLoaded(ss: seq<Substrate>): (r: seq<H.Loaded>)
    reads ss
    ensures |r| == |ss|
  {
    if ss == [] then [] else AllLoaded(ss[..|ss| - 1]) + [LoadedOf(ss[|ss| - 1])]
  }

  lemma PushedIsLoaded(ss: seq<Substrate>, s: Substrate)
    ensures AllLoaded(ss + [s]) == AllLoaded(ss) + [LoadedOf(s)]
  {
    assert (ss + [s])[..|ss|] == ss;
  }

  lemma {:induction false} LoadedAt(ss: seq<Substrate>, i: nat)
    requires i < |ss|
    ensures AllLoaded(ss)[i] == LoadedOf(ss[i])
  {
    if i < |ss| - 1 {
      LoadedAt(ss[..|ss| - 1], i);
    }
  }

  lemma AllLoadedAt(ss: seq<Substrate>)
    ensures forall i :: 0 <= i < |ss| ==> AllLoaded(ss)[i] == LoadedOf(ss[i])
  {
    forall i | 0 <= i < |ss| ensures AllLoaded(ss)[i] == LoadedOf(ss[i]) {
      LoadedAt(ss, i);
    }
  }

  /** The loaded substrates are as they were `before`, but for the one at place `k`. */
  lemma OneChanged(ss: seq<Substrate>, before: seq<H.Loaded>, k: nat)
    requires k < |ss| == |before| && forall i :: 0 <= i < |ss| && i != k ==> LoadedOf(ss[i]) == before[i]
    ensures AllLoaded(ss) == before[k := LoadedOf(ss[k])]
  {
    AllLoadedAt(ss);
  }

  lemma NoneChanged(ss: seq<Substrate>, before: seq<H.Loaded>)
    requires |ss| == |before| && forall i :: 0 <= i < |ss| ==> LoadedOf(ss[i]) == before[i]
    ensures AllLoaded(ss) == before
  {
    AllLoadedAt(ss);
  }

  class ExperimentManager {
    const stage: RheedStage
    const growthDb: GrowthDB
    var substrates: seq<Substrate>

    /** Every stored substrate has its sample rows, and the stack holds different objects. */
    ghost predicate Valid()
      reads this, growthDb
    {
      && |growthDb.samples| == |growthDb.substrates|
      && forall i, j :: 0 <= i < j < |substrates| ==> substrates[i] != substrates[j]
    }

    function View(): H.Campaign
      reads this, growthDb, substrates
    {
      H.Campaign(growthDb.View(), AllLoaded(substrates))
    }

    constructor (stage: RheedStage)
      ensures Valid() && View() == H.EMPTY && this.stage == stage && fresh(growthDb)
    {
      this.stage := stage;
      substrates := [];
      growthDb := new GrowthDB();
    }

    method MaterialiseSamples(id: nat, positions: seq<real>, rootExists: bool)
      requires id < |growthDb.samples| && (!rootExists ==> growthDb.samples[id] == [])
      modifies growthDb`samples
      ensures growthDb.samples == old(growthDb.samples)[id := H.Materialised(old(growthDb.samples[id]), positions)]
    {
      if !rootExists || H.Root !in growthDb.samples[id] {
        growthDb.AddSample(id, H.Root);
      }
      ghost var rooted := growthDb.samples[id];
      assert rooted + H.Placeholders(positions)[..0] == rooted;
      var i := 0;
      while i < |positions|
        invariant i <= |positions|
        invariant growthDb.samples == old(growthDb.samples)[id := rooted + H.Placeholders(positions)[..i]]
      {
        growthDb.AddSample(id, H.PositionSample(i, positions[i], false));
        assert rooted + H.Placeholders(positions)[..i] + [H.PositionSample(i, positions[i], false)]
            == rooted + H.Placeholders(positions)[..i + 1];
        i := i + 1;
      }
      assert H.Placeholders(positions)[..i] == H.Placeholders(positions);
    }

    method FindPositions(g: Geometry, given: seq<real>) returns (result: Result<seq<real>, GeometryError>)
      ensures result == PositionsFor(stage, g, given)
    {
      var positions := given;
      if given == [] {
        var computed := ComputePositions(g);
        if computed.Err? {
          return Err(computed.error);
        }
        positions := computed.value;
      }
      positions := DropByRheedLimit(stage, positions);
      result := Ok(positions);
    }

    /** The stored side of registering. */
    method StoreSubstrate(g: Geometry, positions: seq<real>) returns (id: nat)
      requires |growthDb.samples| == |growthDb.substrates|
      modifies growthDb
      ensures id == old(|growthDb.substrates|) && |growthDb.samples| == |growthDb.substrates|
      ensures growthDb.View() == H.Registered(H.Campaign(old(growthDb.View()), []), g, positions).db
    {
      id := growthDb.AddSubstrate(g, positions);
      MaterialiseSamples(id, positions, false);
    }

    method Push(s: Substrate)
      requires Valid() && s !in substrates
      modifies this`substrates
      ensures Valid() && substrates == old(substrates) + [s]
      ensures View() == H.Campaign(old(View()).db, old(View()).loaded + [LoadedOf(s)])
    {
      PushedIsLoaded(substrates, s);
      substrates := substrates + [s];
    }

    method RegisterSubstrate(g: Geometry, given: seq<real>) returns (result: Result<Substrate, GeometryError>)
      requires Valid()
      modifies this`substrates, growthDb
      ensures Valid() && result.Ok? == PositionsFor(stage, g, given).Ok?
      ensures View() == if result.Ok? then H.Registered(old(View()), g, PositionsFor(stage, g, given).value) else old(View())
    {
      var positions := FindPositions(g, given);
      if positions.Err? {
        return Err(positions.error);
      }
      var id := StoreSubstrate(g, positions.value);
      var substrate := new Substrate(id, g, positions.value);
      Push(substrate);
      result := Ok(substrate);
    }

    method FinishExperimentRecord(substrate: nat, isPixel: bool, location: Option<int>) returns (k: nat)
      requires Valid()
      modifies growthDb`growths
      ensures Valid() && View() == H.Recorded(old(View()), substrate, isPixel, location)
    {
      k := growthDb.AddExperiment(substrate, isPixel, location);
    }

    method MarkIfStored(id: nat, index: nat, grown: bool)
      requires |growthDb.samples| == |growthDb.substrates|
      modifies growthDb`samples
      ensures |growthDb.samples| == |growthDb.substrates|
      ensures growthDb.View() == H.SetSamples(old(growthDb.View()), id, H.Marked(H.SamplesOf(old(growthDb.View()), id), index, grown))
    {
      if id < |growthDb.samples| {
        growthDb.MarkSample(id, index, grown);
      }
    }

    method FinishCurrent()
      requires Valid() && substrates != []
      modifies substrates
      ensures Valid() && var l := H.Current(old(View())); View() == H.SetCurrent(old(View()), l.With(Finish(l.Progress())))
    {
      ghost var before := AllLoaded(substrates);
      AllLoadedAt(substrates);
      substrates[|substrates| - 1].FinishCurrentPosition();
      OneChanged(substrates, before, |substrates| - 1);
    }

    method ReopenCurrent(i: nat)
      requires Valid() && substrates != []
      modifies substrates
      ensures Valid() && var l := H.Current(old(View())); View() == H.SetCurrent(old(View()), l.With(Reopen(l.Progress(), i)))
    {
      ghost var before := AllLoaded(substrates);
      AllLoadedAt(substrates);
      substrates[|substrates| - 1].ReopenPosition(i);
      OneChanged(substrates, before, |substrates| - 1);
    }

    method RestoreCurrent(used: set<int>)
      requires Valid() && substrates != []
      modifies substrates
      ensures Valid() && var l := H.Current(old(View())); View() == H.SetCurrent(old(View()), l.With(Restore(l.Progress(), used)))
    {
      ghost var before := AllLoaded(substrates);
      AllLoadedAt(substrates);
      substrates[|substrates| - 1].RestoreProgress(used);
      OneChanged(substrates, before, |substrates| - 1);
    }

    /** Retires the current position and marks its sample grown. */
    method FinishPosition()
      requires Valid()
      modifies substrates, growthDb`samples
      ensures Valid() && View() == H.Finished(old(View()))
    {
      if substrates == [] {
        return;
      }
      var substrate := substrates[|substrates| - 1];
      var id, index := substrate.dbId, substrate.current;
      FinishCurrent();
      MarkIfStored(id, index, true);
    }

    method FindReopenIndex(index: Option<int>, force: bool) returns (result: Result<nat, H.Refusal>)
      requires Valid()
      ensures result == H.ReopenIndex(View(), index, force)
    {
      if substrates == [] {
        return Err(H.NoCurrent);
      }
      var substrate := substrates[|substrates| - 1];
      var i: int;
      if index.Some? {
        i := index.value;
      } else {
        var last := LastFinished(substrate.accessed);
        if last.None? {
          return Err(H.NothingFinished);
        }
        i := last.value;
      }
      if !(0 <= i < |substrate.positions|) {
        return Err(H.OutOfRange);
      }
      if !force {
        var used := growthDb.UsedPixelIndices(substrate.dbId);
        if i in used {
          return Err(H.Spent);
        }
      }
      result := Ok(i);
    }

    method ReopenPosition(index: Option<int>, force: bool) returns (result: Result<nat, H.Refusal>)
      requires Valid()
      modifies substrates, growthDb`samples
      ensures Valid() && result == H.ReopenIndex(old(View()), index, force)
      ensures View() == if result.Ok? then H.Reopened(old(View()), result.value) else old(View())
    {
      result := FindReopenIndex(index, force);
      if result.Ok? {
        var id := substrates[|substrates| - 1].dbId;
        ReopenCurrent(result.value);
        MarkIfStored(id, result.value, false);
      }
    }

    method MarkGrownSamples(id: nat, accessed: set<nat>, n: nat)
      requires id < |growthDb.samples| == |growthDb.substrates|
      modifies growthDb`samples
      ensures growthDb.samples == old(growthDb.samples)[id := H.AllMarked(old(growthDb.samples[id]), accessed, n)]
    {
      var i := 0;
      while i < n
        invariant i <= n && |growthDb.samples| == |growthDb.substrates|
        invariant growthDb.samples == old(growthDb.samples)[id := H.AllMarked(old(growthDb.samples[id]), accessed, i)]
      {
        if i in accessed {
          growthDb.MarkSample(id, i, true);
        }
        i := i + 1;
      }
    }

    /** A substrate without sample rows gets them, and the spent positions' rows are marked grown. */
    method PrepareSamples(id: nat, positions: seq<real>, accessed: set<nat>)
      requires id < |growthDb.samples| == |growthDb.substrates|
      modifies growthDb`samples
      ensures var rows := old(growthDb.samples[id]);
              growthDb.samples == old(growthDb.samples)[id :=
                H.AllMarked(if rows == [] then H.Materialised([], positions) else rows, accessed, |positions|)]
    {
      if growthDb.samples[id] == [] {
        MaterialiseSamples(id, positions, false);
      }
      MarkGrownSamples(id, accessed, |positions|);
    }

    method ResumeSubstrate(id: nat) returns (result: Result<Substrate, H.Refusal>)
      requires Valid()
      modifies this`substrates, growthDb`samples
      ensures Valid() && result.Ok? == (id < old(|growthDb.substrates|))
      ensures View() == if result.Ok? then H.Resumed(old(View()), id) else old(View())
    {
      if id >= |growthDb.substrates| {
        return Err(H.Unknown);
      }
      var row := growthDb.substrates[id];
      var substrate := new Substrate(id, row.geometry, row.positions);
      var used := growthDb.UsedPixelIndices(id);
      substrate.RestoreProgress(used);
      PrepareSamples(id, row.positions, substrate.accessed);
      Push(substrate);
      result := Ok(substrate);
    }

    method UnloadSubstrate()
      requires Valid()
      modifies this`substrates
      ensures Valid() && View() == H.Unloaded(old(View()))
    {
      if substrates != [] {
        substrates := substrates[..|substrates| - 1];
      }
    }

    method RetireExperiment(k: nat, retire: bool) returns (ok: bool)
      requires Valid()
      modifies substrates, growthDb`growths
      ensures Valid() && ok == (k < old(|growthDb.growths|))
      ensures View() == if ok then H.Retired(old(View()), k, retire) else old(View())
    {
      if k >= |growthDb.growths| {
        return false;
      }
      growthDb.SetGrowthState(k, retire);
      if substrates != [] {
        var substrate := substrates[|substrates| - 1];
        if substrate.dbId == growthDb.growths[k].substrate {
          var used := growthDb.UsedPixelIndices(substrate.dbId);
          RestoreCurrent(used);
        }
      }
      return true;
    }

    /** The first loaded copy of a substrate, or one built from its row and not pushed. */
    method TargetOf(id: nat) returns (at: nat, target: Substrate)
      requires Valid() && id < |growthDb.substrates|
      ensures at == H.FirstCopy(AllLoaded(substrates), id, 0) && LoadedOf(target) == H.EditTarget(View(), id)
      ensures target.dbId == id
      ensures if at < |substrates| then target == substrates[at] else fresh(target)
    {
      H.FirstCopyIsFirst(AllLoaded(substrates), id, 0);
      at := 0;
      while at < |substrates|
        invariant at <= |substrates|
        invariant H.FirstCopy(AllLoaded(substrates), id, 0) == H.FirstCopy(AllLoaded(substrates), id, at)
      {
        LoadedAt(substrates, at);
        if substrates[at].dbId == id {
          return at, substrates[at];
        }
        at := at + 1;
      }
      target := new Substrate(id, growthDb.substrates[id].geometry, growthDb.substrates[id].positions);
    }

    /** The stored side of a geometry correction. */
    method StoreGeometry(id: nat, edit: H.Edit, positions: seq<real>)
      requires id < |growthDb.substrates| == |growthDb.samples|
      modifies growthDb`samples, growthDb`substrates
      ensures |growthDb.substrates| == |growthDb.samples|
      ensures growthDb.View() == H.GeometryApplied(H.Campaign(old(growthDb.View()), []), id, edit, positions).db
    {
      growthDb.DeletePositionSamples(id);
      MaterialiseSamples(id, positions, true);
      growthDb.UpdateSubstrate(id, H.SubstrateRow(edit.On(growthDb.substrates[id].geometry), positions));
    }

    /** Sets the target's geometry, and with it its positions and progress when those can be computed. */
    method SetTarget(at: nat, target: Substrate, id: nat, g: Geometry, positions: Option<seq<real>>)
      requires Valid() && (if at < |substrates| then target == substrates[at] else target !in substrates) && target.dbId == id
      modifies target
      ensures Valid() && growthDb.View() == old(growthDb.View())
      ensures AllLoaded(substrates) == H.SetCopy(old(AllLoaded(substrates)), at,
                if positions.Some? then H.Fresh(id, g, positions.value) else old(LoadedOf(target)).(geometry := g))
    {
      ghost var before := AllLoaded(substrates);
      AllLoadedAt(substrates);
      target.geometry := g;
      if positions.Some? {
        target.positions := positions.value;
        target.ResetProgress();
      }
      if at < |substrates| {
        OneChanged(substrates, before, at);
      } else {
        NoneChanged(substrates, before);
      }
    }

    /** A geometry correction that has passed its gate. */
    method ApplyGeometry(id: nat, edit: H.Edit) returns (refusal: Option<H.Refusal>)
      requires Valid() && id < |growthDb.substrates| && edit.IsGeometry()
      modifies substrates, growthDb`samples, growthDb`substrates
      ensures Valid() && (View(), refusal) == H.EditApplied(stage, old(View()), id, edit)
    {
      var at, target := TargetOf(id);
      var g := edit.On(target.geometry);
      var positions := FindPositions(g, edit.Given());
      if positions.Err? {
        SetTarget(at, target, id, g, None);
        return Some(H.BadGeometry);
      }
      SetTarget(at, target, id, g, Some(positions.value));
      StoreGeometry(id, edit, positions.value);
      return None;
    }

    method UpdateSubstrate(id: Option<nat>, edit: H.Edit) returns (refusal: Option<H.Refusal>)
      requires Valid()
      modifies substrates, growthDb`samples, growthDb`substrates
      ensures Valid() && (View(), refusal) == H.Updated(stage, old(View()), id, edit)
    {
      var target: nat;
      if id.Some? {
        target := id.value;
      } else if substrates == [] {
        return Some(H.NoCurrent);
      } else {
        target := substrates[|substrates| - 1].dbId;
      }
      if target >= |growthDb.substrates| {
        return Some(H.Unknown);
      }
      if !edit.IsGeometry() {
        return None;
      }
      var grown := growthDb.CountExperiments(target);
      if grown > 0 {
        return Some(H.AlreadyGrown);
      }
      refusal := ApplyGeometry(target, edit);
    }
  }
}
