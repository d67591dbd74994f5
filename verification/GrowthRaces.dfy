/** Corrections and growths in every interleaving. A correction counts the substrate's growths, suspends, and then
    writes (src/lumi/experiment/manager.py, lines 475-513); a growth may be recorded in between. */
module GrowthRaces {
  import opened Common
  import opened Positions
  import opened GrowthHistory
  import opened GrowthInvariants

  /** A correction past its gate: what it edits, the geometry of the row it fetched, and how many growths there were
      when it counted. */
  datatype PendingEdit = PendingEdit(id: nat, edit: Edit, fetched: Geometry, growthsThen: nat)

  datatype System = System(c: Campaign, edits: map<nat, PendingEdit>, nextEdit: nat)

  const IDLE: System := System(EMPTY, map[], 0)

  /** An operation that is not interrupted, or one of the two halves of a correction that is. */
  datatype Step = Do(op: Op) | Gate(target: Option<nat>, edit: Edit) | Commit(u: nat)

  function Gated(s: System, id: nat, edit: Edit): System
    requires id < |s.c.db.substrates|
  {
    s.(edits := s.edits[s.nextEdit := PendingEdit(id, edit, s.c.db.substrates[id].geometry, |s.c.db.growths|)],
       nextEdit := s.nextEdit + 1)
  }

  function Committed(stage: RheedStage, c: Campaign, p: PendingEdit): Campaign
    requires p.id < |c.db.substrates|
  {
    EditAppliedUsing(stage, c, p.id, p.edit, TargetGeometry(c, p.id, p.fetched)).0
  }

  function Next(stage: RheedStage, s: System, step: Step): System {
    match step
    case Do(op) => s.(c := Apply(stage, s.c, op))
    case Gate(target, edit) =>
      if target.None? && s.c.loaded == [] then s
      else
        var id := if target.Some? then target.value else Current(s.c).id;
        if EditGate(s.c, id, edit).Some? then s else Gated(s, id, edit)
    case Commit(u) =>
      if u in s.edits && s.edits[u].id < |s.c.db.substrates| then
        s.(c := Committed(stage, s.c, s.edits[u]), edits := s.edits - {u})
      else s
  }

  function After(stage: RheedStage, steps: seq<Step>): System {
    if steps == [] then IDLE else Next(stage, After(stage, steps[..|steps| - 1]), steps[|steps| - 1])
  }

  // ----- what the gate found --------------------------------------------------------------------

  /** A growth of the substrate was recorded after the first `n`. */
  ghost predicate RecordedSince(growths: seq<Growth>, n: nat, id: nat) {
    exists k :: n <= k < |growths| && growths[k].substrate == id
  }

  ghost predicate NoneBefore(growths: seq<Growth>, n: nat, id: nat) {
    n <= |growths| && forall k :: 0 <= k < n ==> growths[k].substrate != id
  }

  /** What a pending correction's gate saw still holds of the growths there were then. */
  ghost predicate GateHolds(p: PendingEdit, db: Db) {
    p.id < |db.substrates| && (p.edit.IsGeometry() ==> NoneBefore(db.growths, p.growthsThen, p.id))
  }

  ghost predicate GatesHold(s: System) {
    forall u :: u in s.edits ==> GateHolds(s.edits[u], s.c.db)
  }

  /** Growths are never taken away, nor moved to another substrate, and neither are substrates. */
  ghost predicate TablesGrow(before: Db, after: Db) {
    && |before.substrates| <= |after.substrates| && |before.growths| <= |after.growths|
    && forall k :: 0 <= k < |before.growths| ==> after.growths[k].substrate == before.growths[k].substrate
  }

  lemma OpsGrowTables(stage: RheedStage, c: Campaign, op: Op)
    ensures TablesGrow(c.db, Apply(stage, c, op).db)
  {
  }

  lemma GateStillHolds(p: PendingEdit, before: Db, after: Db)
    requires GateHolds(p, before) && TablesGrow(before, after)
    ensures GateHolds(p, after)
  {
  }

  lemma FreshGateHolds(s: System, id: nat, edit: Edit)
    requires GatesHold(s) && EditGate(s.c, id, edit).None?
    ensures GatesHold(Gated(s, id, edit))
  {
    var p := PendingEdit(id, edit, s.c.db.substrates[id].geometry, |s.c.db.growths|);
    assert GateHolds(p, s.c.db);
  }

  lemma StepKeepsGates(stage: RheedStage, s: System, step: Step)
    requires GatesHold(s)
    ensures GatesHold(Next(stage, s, step)) && TablesGrow(s.c.db, Next(stage, s, step).c.db)
  {
    var s' := Next(stage, s, step);
    match step {
      case Gate(target, edit) =>
        if s' != s { FreshGateHolds(s, if target.Some? then target.value else Current(s.c).id, edit); }
      case Do(op) =>
        OpsGrowTables(stage, s.c, op);
        forall u | u in s'.edits ensures GateHolds(s'.edits[u], s'.c.db) { GateStillHolds(s.edits[u], s.c.db, s'.c.db); }
      case Commit(_) =>
        forall u | u in s'.edits ensures GateHolds(s'.edits[u], s'.c.db) { GateStillHolds(s.edits[u], s.c.db, s'.c.db); }
    }
  }

  lemma {:induction false} GatesHoldAlways(stage: RheedStage, steps: seq<Step>)
    ensures GatesHold(After(stage, steps))
  {
    if steps != [] {
      GatesHoldAlways(stage, steps[..|steps| - 1]);
      StepKeepsGates(stage, After(stage, steps[..|steps| - 1]), steps[|steps| - 1]);
    }
  }

  // ----- exactly when a correction renumbers a growth ----------------------------------------------

  /** The stored row of a substrate with a growth is not what it was. */
  ghost predicate Renumbers(c: Campaign, c': Campaign, id: nat) {
    && id < |c.db.substrates| && id < |c'.db.substrates|
    && HasGrowth(c.db.growths, id) && c'.db.substrates[id] != c.db.substrates[id]
  }

  lemma GrowthsSinceGate(p: PendingEdit, db: Db)
    requires GateHolds(p, db) && p.edit.IsGeometry()
    ensures HasGrowth(db.growths, p.id) <==> RecordedSince(db.growths, p.growthsThen, p.id)
  {
  }

  /** Applying the edit changes the row: it is one of geometry, its positions can be worked out, and they or the
      columns it sets differ from what is stored. */
  ghost predicate EditChangesRow(stage: RheedStage, c: Campaign, p: PendingEdit)
    requires p.id < |c.db.substrates|
  {
    var row := c.db.substrates[p.id];
    var positions := PositionsFor(stage, p.edit.On(TargetGeometry(c, p.id, p.fetched)), p.edit.Given());
    p.edit.IsGeometry() && positions.Ok? && (positions.value != row.positions || p.edit.On(row.geometry) != row.geometry)
  }

  lemma CommitChangesRow(stage: RheedStage, c: Campaign, p: PendingEdit, id: nat)
    requires p.id < |c.db.substrates| && id < |c.db.substrates|
    ensures var c' := Committed(stage, c, p);
            && |c'.db.substrates| == |c.db.substrates| && c'.db.growths == c.db.growths
            && (c'.db.substrates[id] != c.db.substrates[id] <==> id == p.id && EditChangesRow(stage, c, p))
  {
  }

  /** In every run, applying a pending correction changes the stored row of a substrate that then has a growth if and
      only if that substrate is the one corrected, a growth of it was recorded between the correction's gate and now,
      and the edit changes the row. */
  lemma CommitRenumbersExactly(stage: RheedStage, steps: seq<Step>, u: nat, id: nat)
    requires u in After(stage, steps).edits
    ensures var s := After(stage, steps);
            var p := s.edits[u];
            && p.id < |s.c.db.substrates|
            && (Renumbers(s.c, Next(stage, s, Commit(u)).c, id) <==>
                id == p.id && RecordedSince(s.c.db.growths, p.growthsThen, id) && EditChangesRow(stage, s.c, p))
  {
    GatesHoldAlways(stage, steps);
    var s := After(stage, steps);
    var p := s.edits[u];
    assert GateHolds(p, s.c.db);
    if id < |s.c.db.substrates| {
      CommitChangesRow(stage, s.c, p, id);
      if p.edit.IsGeometry() { GrowthsSinceGate(p, s.c.db); }
    }
  }

  /** An operation that is not interrupted never does. */
  lemma OpsNeverRenumber(stage: RheedStage, c: Campaign, op: Op, id: nat)
    ensures !Renumbers(c, Apply(stage, c, op), id)
  {
  }

  /** This step commits a correction although a growth of its substrate was recorded since its gate. */
  ghost predicate IsRace(s: System, step: Step) {
    && step.Commit? && step.u in s.edits && s.edits[step.u].id < |s.c.db.substrates|
    && RecordedSince(s.c.db.growths, s.edits[step.u].growthsThen, s.edits[step.u].id)
  }

  /** No correction is committed after a growth of its substrate was recorded since its gate. */
  ghost predicate NoRaces(stage: RheedStage, steps: seq<Step>) {
    steps == [] || (NoRaces(stage, steps[..|steps| - 1]) && !IsRace(After(stage, steps[..|steps| - 1]), steps[|steps| - 1]))
  }

  lemma StepNeverRenumbers(stage: RheedStage, steps: seq<Step>, step: Step, id: nat)
    requires !IsRace(After(stage, steps), step)
    ensures !Renumbers(After(stage, steps).c, Next(stage, After(stage, steps), step).c, id)
  {
    var s := After(stage, steps);
    if step.Do? {
      OpsNeverRenumber(stage, s.c, step.op, id);
    } else if step.Commit? && step.u in s.edits {
      CommitRenumbersExactly(stage, steps, step.u, id);
    }
  }

  lemma GrowthStays(before: Db, after: Db, id: nat)
    requires TablesGrow(before, after) && HasGrowth(before.growths, id)
    ensures HasGrowth(after.growths, id)
  {
    var k :| 0 <= k < |before.growths| && before.growths[k].substrate == id;
    assert after.growths[k].substrate == id;
  }

  /** In every run without such races, once a substrate has a growth, retired or not, its stored row never changes
      again. */
  lemma {:induction false} GrownPositionsNeverChange(stage: RheedStage, steps: seq<Step>, n: nat, id: nat)
    requires n <= |steps| && NoRaces(stage, steps)
    requires var before := After(stage, steps[..n]).c.db; id < |before.substrates| && HasGrowth(before.growths, id)
    ensures var before, after := After(stage, steps[..n]).c.db, After(stage, steps).c.db;
            id < |after.substrates| && HasGrowth(after.growths, id) && after.substrates[id] == before.substrates[id]
  {
    if n == |steps| {
      assert steps[..n] == steps;
    } else {
      var shorter, step := steps[..|steps| - 1], steps[|steps| - 1];
      assert shorter[..n] == steps[..n];
      GrownPositionsNeverChange(stage, shorter, n, id);
      GatesHoldAlways(stage, shorter);
      StepKeepsGates(stage, After(stage, shorter), step);
      GrowthStays(After(stage, shorter).c.db, After(stage, steps).c.db, id);
      StepNeverRenumbers(stage, shorter, step, id);
    }
  }

  // ----- the rest of the invariant -----------------------------------------------------------------

  /** Sample rows match the stored positions, and first copies agree with their rows, in every interleaving of whole operations and
      the two halves of corrections. */
  lemma {:induction false} InvThroughRaces(stage: RheedStage, steps: seq<Step>)
    ensures Inv(After(stage, steps).c)
  {
    if steps != [] {
      var s, step := After(stage, steps[..|steps| - 1]), steps[|steps| - 1];
      InvThroughRaces(stage, steps[..|steps| - 1]);
      match step {
        case Do(op) => StepKeeps(stage, s.c, op);
        case Gate(_, _) =>
        case Commit(u) =>
          if u in s.edits && s.edits[u].id < |s.c.db.substrates| {
            var p := s.edits[u];
            EditKeeps(stage, s.c, p.id, p.edit, TargetGeometry(s.c, p.id, p.fetched));
          }
      }
    }
  }

  // ----- corrections in one step --------------------------------------------------------------------

  lemma {:induction false} EditsAreOld(stage: RheedStage, steps: seq<Step>)
    ensures forall u :: u in After(stage, steps).edits ==> u < After(stage, steps).nextEdit
  {
    if steps != [] {
      EditsAreOld(stage, steps[..|steps| - 1]);
    }
  }

  /** A correction whose two halves come one right after the other is the operation `Update`. */
  lemma GateThenCommitIsUpdate(stage: RheedStage, steps: seq<Step>, target: Option<nat>, edit: Edit)
    ensures var s := After(stage, steps);
            var s', update := Next(stage, s, Gate(target, edit)), Updated(stage, s.c, target, edit);
            if s' == s then update.1.Some? && update.0 == s.c
            else s'.c == s.c && Next(stage, s', Commit(s.nextEdit)).c == update.0 && Next(stage, s', Commit(s.nextEdit)).edits == s.edits
  {
    var s := After(stage, steps);
    EditsAreOld(stage, steps);
    if !(target.None? && s.c.loaded == []) {
      var id := if target.Some? then target.value else Current(s.c).id;
      if EditGate(s.c, id, edit).None? {
        assert s.nextEdit in Gated(s, id, edit).edits;
      }
    }
  }

  function Whole(ops: seq<Op>): (steps: seq<Step>)
    ensures |steps| == |ops|
  {
    seq(|ops|, i requires 0 <= i < |ops| => Do(ops[i]))
  }

  lemma {:induction false} WholeRuns(stage: RheedStage, ops: seq<Op>)
    ensures After(stage, Whole(ops)).c == Run(stage, ops) && NoRaces(stage, Whole(ops))
  {
    if ops != [] {
      assert Whole(ops)[..|ops| - 1] == Whole(ops[..|ops| - 1]);
      WholeRuns(stage, ops[..|ops| - 1]);
    }
  }

  /** When every correction is one step, a grown substrate's row never changes. */
  lemma WholeOpsNeverRenumber(stage: RheedStage, ops: seq<Op>, n: nat, id: nat)
    requires n <= |ops|
    requires var before := Run(stage, ops[..n]).db; id < |before.substrates| && HasGrowth(before.growths, id)
    ensures var before, after := Run(stage, ops[..n]).db, Run(stage, ops).db;
            id < |after.substrates| && HasGrowth(after.growths, id) && after.substrates[id] == before.substrates[id]
  {
    WholeRuns(stage, ops);
    WholeRuns(stage, ops[..n]);
    assert Whole(ops)[..n] == Whole(ops[..n]);
    GrownPositionsNeverChange(stage, Whole(ops), n, id);
  }

  /** Such a race can be run: whatever was registered, a correction gated, a growth recorded and the correction then
      committed leave the growth under the positions it gave. */
  lemma CorrectionRacesWithRecord(stage: RheedStage, g: Geometry, given: seq<real>, edit: Edit)
    requires PositionsFor(stage, g, given).Ok? && edit.IsGeometry() && PositionsFor(stage, edit.On(g), edit.Given()).Ok?
    ensures var s0 := Next(stage, Next(stage, IDLE, Do(Register(g, given))), Gate(Some(0), edit));
            var s1 := Next(stage, s0, Do(Record(0, true, Some(0))));
            var s2 := Next(stage, s1, Commit(0));
            && IsRace(s1, Commit(0))
            && HasGrowth(s2.c.db.growths, 0) && |s2.c.db.substrates| == 1
            && s2.c.db.substrates[0] == SubstrateRow(edit.On(g), PositionsFor(stage, edit.On(g), edit.Given()).value)
  {
    var s0 := Next(stage, Next(stage, IDLE, Do(Register(g, given))), Gate(Some(0), edit));
    var s1 := Next(stage, s0, Do(Record(0, true, Some(0))));
    assert s1.c.db.growths[0].substrate == 0;
    assert 0 in s1.edits;
    assert FirstCopy(s1.c.loaded, 0, 0) == 0;
  }

  // ----- what is stored can be reached ---------------------------------------------------------------

  /** Every stored position puts the stage within its limits. */
  ghost predicate StoredIsReachable(stage: RheedStage, substrates: seq<SubstrateRow>) {
    forall id, i :: 0 <= id < |substrates| && 0 <= i < |substrates[id].positions| ==> WithinLimits(stage, substrates[id].positions[i])
  }

  lemma GivenIsReachable(stage: RheedStage, g: Geometry, given: seq<real>, i: nat)
    requires PositionsFor(stage, g, given).Ok? && i < |PositionsFor(stage, g, given).value|
    ensures WithinLimits(stage, PositionsFor(stage, g, given).value[i])
  {
    PositionsExactly(stage, g, given, PositionsFor(stage, g, given).value[i]);
  }

  lemma EditStaysReachable(stage: RheedStage, c: Campaign, id: nat, edit: Edit, g: Geometry)
    requires id < |c.db.substrates| && StoredIsReachable(stage, c.db.substrates)
    ensures StoredIsReachable(stage, EditAppliedUsing(stage, c, id, edit, g).0.db.substrates)
  {
    var positions := PositionsFor(stage, edit.On(g), edit.Given());
    if edit.IsGeometry() && positions.Ok? {
      forall i: nat | i < |positions.value| ensures WithinLimits(stage, positions.value[i]) {
        GivenIsReachable(stage, edit.On(g), edit.Given(), i);
      }
    }
  }

  lemma OpStaysReachable(stage: RheedStage, c: Campaign, op: Op)
    requires StoredIsReachable(stage, c.db.substrates)
    ensures StoredIsReachable(stage, Apply(stage, c, op).db.substrates)
  {
    match op {
      case Register(g, given) =>
        if PositionsFor(stage, g, given).Ok? {
          forall i: nat | i < |PositionsFor(stage, g, given).value| ensures WithinLimits(stage, PositionsFor(stage, g, given).value[i]) {
            GivenIsReachable(stage, g, given, i);
          }
        }
      case Update(target, edit) =>
        if target.Some? || c.loaded != [] {
          var id := if target.Some? then target.value else Current(c).id;
          if EditGate(c, id, edit).None? {
            EditStaysReachable(stage, c, id, edit, TargetGeometry(c, id, c.db.substrates[id].geometry));
          }
        }
      case _ =>
    }
  }

  /** In every interleaving every stored position of every substrate puts the stage within its limits. */
  lemma {:induction false} StoredIsReachableAlways(stage: RheedStage, steps: seq<Step>)
    ensures StoredIsReachable(stage, After(stage, steps).c.db.substrates)
  {
    if steps != [] {
      var s, step := After(stage, steps[..|steps| - 1]), steps[|steps| - 1];
      StoredIsReachableAlways(stage, steps[..|steps| - 1]);
      match step {
        case Do(op) => OpStaysReachable(stage, s.c, op);
        case Gate(_, _) =>
        case Commit(u) =>
          if u in s.edits && s.edits[u].id < |s.c.db.substrates| {
            var p := s.edits[u];
            EditStaysReachable(stage, s.c, p.id, p.edit, TargetGeometry(s.c, p.id, p.fetched));
          }
      }
    }
  }
}
