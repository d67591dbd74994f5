/** A campaign's history: the stored substrates, their sample rows and their growths, beside the substrates that
    are loaded (src/lumi/experiment/manager.py, lines 308-563; src/lumi/experiment/handlers.py, lines 951-960;
    src/lumi/experiment/db.py, lines 655-750). */
module GrowthHistory {
  import opened Common
  import opened Positions
  import P = SubstrateProgress

  // ----- tables -----------------------------------------------------------------------------

  datatype SubstrateRow = SubstrateRow(geometry: Geometry, positions: seq<real>)

  datatype Sample = Root | PositionSample(index: nat, position: real, grown: bool)

  datatype Growth = Growth(substrate: nat, isPixel: bool, location: Option<int>, retired: bool)

  /** Rows are identified by their place in the table; `samples[id]` are those of substrate `id`. */
  datatype Db = Db(substrates: seq<SubstrateRow>, samples: seq<seq<Sample>>, growths: seq<Growth>)

  predicate HasGrowth(growths: seq<Growth>, id: nat) {
    exists k :: 0 <= k < |growths| && growths[k].substrate == id
  }

  /** The index a growth uses up: its pixel, or the first position for one that was not a pixel. */
  function UsedBy(g: Growth): Option<int> {
    if g.isPixel then g.location else Some(0)
  }

  function Used(growths: seq<Growth>, id: nat): set<int> {
    if growths == [] then {}
    else
      var last := growths[|growths| - 1];
      Used(growths[..|growths| - 1], id)
      + (if last.substrate == id && !last.retired && UsedBy(last).Some? then {UsedBy(last).value} else {})
  }

  ghost predicate HasLiveGrowth(growths: seq<Growth>, id: nat, index: int) {
    exists k :: 0 <= k < |growths| && growths[k].substrate == id && !growths[k].retired && UsedBy(growths[k]) == Some(index)
  }

  lemma {:induction false} UsedIsLive(growths: seq<Growth>, id: nat, index: int)
    ensures index in Used(growths, id) <==> HasLiveGrowth(growths, id, index)
  {
    if growths != [] {
      var before := growths[..|growths| - 1];
      UsedIsLive(before, id, index);
      if HasLiveGrowth(before, id, index) {
        var k :| 0 <= k < |before| && before[k].substrate == id && !before[k].retired && UsedBy(before[k]) == Some(index);
        assert growths[k] == before[k];
      }
      if HasLiveGrowth(growths, id, index) {
        var k :| 0 <= k < |growths| && growths[k].substrate == id && !growths[k].retired && UsedBy(growths[k]) == Some(index);
        assert k < |before| ==> before[k] == growths[k];
      }
    }
  }

  /** The growth stands and took this index: its pixel's, or the first if it was not a pixel. */
  predicate UsesUp(g: Growth, id: nat, index: int) {
    g.substrate == id && !g.retired && (if g.isPixel then g.location == Some(index) else index == 0)
  }

  /** An index is used up exactly when some growth that stands took it. */
  lemma UsedExactly(growths: seq<Growth>, id: nat, index: int)
    ensures index in Used(growths, id) <==> exists k :: 0 <= k < |growths| && UsesUp(growths[k], id, index)
  {
    UsedIsLive(growths, id, index);
    if k :| 0 <= k < |growths| && UsesUp(growths[k], id, index) {
      assert UsedBy(growths[k]) == Some(index);
    }
    if k :| 0 <= k < |growths| && growths[k].substrate == id && !growths[k].retired && UsedBy(growths[k]) == Some(index) {
      assert UsesUp(growths[k], id, index);
    }
  }

  function Placeholders(positions: seq<real>): (rows: seq<Sample>)
    ensures |rows| == |positions|
  {
    seq(|positions|, i requires 0 <= i < |positions| => PositionSample(i, positions[i], false))
  }

  /** The rows a substrate has after its positions are (re-)materialised: a root, kept if there is one. */
  function Materialised(existing: seq<Sample>, positions: seq<real>): seq<Sample> {
    (if Root in existing then existing else existing + [Root]) + Placeholders(positions)
  }

  function RootsOnly(rows: seq<Sample>): seq<Sample> {
    if rows == [] then []
    else (if rows[0].Root? then [rows[0]] else []) + RootsOnly(rows[1..])
  }

  /** The first row of position `index` takes the given state, if there is one. */
  function Marked(rows: seq<Sample>, index: nat, grown: bool): (r: seq<Sample>)
    ensures |r| == |rows|
  {
    if rows == [] then []
    else if IsRowOf(rows[0], index) then [rows[0].(grown := grown)] + rows[1..]
    else [rows[0]] + Marked(rows[1..], index, grown)
  }

  predicate IsRowOf(s: Sample, index: nat) {
    s.PositionSample? && s.index == index
  }

  /** Marking a row that is there marks that row and no other. */
  lemma {:induction false} MarkedMarks(rows: seq<Sample>, index: nat, grown: bool, at: nat)
    requires at < |rows| && IsRowOf(rows[at], index)
    requires forall j :: 0 <= j < at ==> !IsRowOf(rows[j], index)
    ensures Marked(rows, index, grown) == rows[at := rows[at].(grown := grown)]
  {
    if at > 0 {
      MarkedMarks(rows[1..], index, grown, at - 1);
    }
  }

  lemma {:induction false} MarkedMissing(rows: seq<Sample>, index: nat, grown: bool)
    requires forall j :: 0 <= j < |rows| ==> !IsRowOf(rows[j], index)
    ensures Marked(rows, index, grown) == rows
  {
    if rows != [] {
      MarkedMissing(rows[1..], index, grown);
    }
  }

  /** Each row of an accessed position is marked grown; `n` bounds the indices. */
  function AllMarked(rows: seq<Sample>, accessed: set<nat>, n: nat): (r: seq<Sample>)
    ensures |r| == |rows|
  {
    if n == 0 then rows
    else
      var r := AllMarked(rows, accessed, n - 1);
      if n - 1 in accessed then Marked(r, n - 1, true) else r
  }

  // ----- what is loaded ------------------------------------------------------------------------

  datatype Loaded = Loaded(id: nat, geometry: Geometry, positions: seq<real>, accessed: set<nat>, current: nat)
  {
    function Progress(): P.Progress {
      P.Progress(|positions|, accessed, current)
    }

    function With(p: P.Progress): Loaded {
      this.(accessed := p.accessed, current := p.current)
    }
  }

  /** The database and the stack of loaded substrates, whose last one is current. */
  datatype Campaign = Campaign(db: Db, loaded: seq<Loaded>)

  const EMPTY: Campaign := Campaign(Db([], [], []), [])

  datatype Refusal = NoCurrent | NothingFinished | OutOfRange | Spent | Unknown | AlreadyGrown | BadGeometry

  function Fresh(id: nat, g: Geometry, positions: seq<real>): Loaded {
    Loaded(id, g, positions, {}, 0)
  }

  // ----- operations ------------------------------------------------------------------------------

  function Registered(c: Campaign, g: Geometry, positions: seq<real>): Campaign {
    var id := |c.db.substrates|;
    Campaign(
      c.db.(substrates := c.db.substrates + [SubstrateRow(g, positions)], samples := c.db.samples + [Materialised([], positions)]),
      c.loaded + [Fresh(id, g, positions)])
  }

  function Recorded(c: Campaign, substrate: nat, isPixel: bool, location: Option<int>): Campaign {
    c.(db := c.db.(growths := c.db.growths + [Growth(substrate, isPixel, location, false)]))
  }

  function SetSamples(db: Db, id: nat, rows: seq<Sample>): Db {
    if id < |db.samples| then db.(samples := db.samples[id := rows]) else db
  }

  function SamplesOf(db: Db, id: nat): seq<Sample> {
    if id < |db.samples| then db.samples[id] else []
  }

  function Current(c: Campaign): Loaded
    requires c.loaded != []
  {
    c.loaded[|c.loaded| - 1]
  }

  function SetCurrent(c: Campaign, l: Loaded): Campaign
    requires c.loaded != []
  {
    c.(loaded := c.loaded[|c.loaded| - 1 := l])
  }

  function Finished(c: Campaign): Campaign {
    if c.loaded == [] then c
    else
      var l := Current(c);
      SetCurrent(c, l.With(P.Finish(l.Progress()))).(db := SetSamples(c.db, l.id, Marked(SamplesOf(c.db, l.id), l.current, true)))
  }

  /** The index to reopen, or why not: the last finished one unless named, in range, and not grown on unless forced. */
  function ReopenIndex(c: Campaign, index: Option<int>, force: bool): Result<nat, Refusal> {
    if c.loaded == [] then Err(NoCurrent)
    else
      var l := Current(c);
      var last := P.LastFinished(l.accessed);
      if index.None? && last.None? then Err(NothingFinished)
      else
        var i: int := if index.Some? then index.value else last.value;
        if !(0 <= i < |l.positions|) then Err(OutOfRange)
        else if !force && i in Used(c.db.growths, l.id) then Err(Spent)
        else Ok(i)
  }

  function Reopened(c: Campaign, i: nat): Campaign
    requires c.loaded != []
  {
    var l := Current(c);
    SetCurrent(c, l.With(P.Reopen(l.Progress(), i))).(db := SetSamples(c.db, l.id, Marked(SamplesOf(c.db, l.id), i, false)))
  }

  function Restored(l: Loaded, growths: seq<Growth>): Loaded {
    l.With(P.Restore(l.Progress(), Used(growths, l.id)))
  }

  function Resumed(c: Campaign, id: nat): Campaign
    requires id < |c.db.substrates|
  {
    var row := c.db.substrates[id];
    var l := Restored(Fresh(id, row.geometry, row.positions), c.db.growths);
    var rows := if SamplesOf(c.db, id) == [] then Materialised([], row.positions) else SamplesOf(c.db, id);
    Campaign(SetSamples(c.db, id, AllMarked(rows, l.accessed, |l.positions|)), c.loaded + [l])
  }

  function Unloaded(c: Campaign): Campaign {
    if c.loaded == [] then c else c.(loaded := c.loaded[..|c.loaded| - 1])
  }

  /** The growth is retired or made active again; a current substrate it belongs to has its progress restored. */
  function Retired(c: Campaign, k: nat, retire: bool): Campaign
    requires k < |c.db.growths|
  {
    var growths := c.db.growths[k := c.db.growths[k].(retired := retire)];
    var c' := c.(db := c.db.(growths := growths));
    if c.loaded != [] && Current(c).id == growths[k].substrate then SetCurrent(c', Restored(Current(c), growths)) else c'
  }

  /** A correction of a substrate's geometry; the descriptive fields are not modelled. */
  datatype Edit = Edit(width: Option<real>, height: Option<real>, spacing: Option<real>, positions: Option<seq<real>>)
  {
    predicate IsGeometry() {
      width.Some? || height.Some? || spacing.Some? || positions.Some?
    }

    function On(g: Geometry): Geometry {
      Geometry(if width.Some? then width.value else g.width, if spacing.Some? then spacing else g.spacing)
    }

    function Given(): seq<real> {
      if positions.Some? then positions.value else []
    }
  }

  /** The first loaded copy of a substrate, or the number of loaded ones if there is none. */
  function FirstCopy(loaded: seq<Loaded>, id: nat, i: nat): (j: nat)
    requires i <= |loaded|
    decreases |loaded| - i
  {
    if i == |loaded| || loaded[i].id == id then i else FirstCopy(loaded, id, i + 1)
  }

  lemma {:induction false} FirstCopyIsFirst(loaded: seq<Loaded>, id: nat, i: nat)
    requires i <= |loaded|
    ensures var j := FirstCopy(loaded, id, i);
            && i <= j <= |loaded|
            && (j < |loaded| ==> loaded[j].id == id)
            && (forall k :: i <= k < j ==> loaded[k].id != id)
    decreases |loaded| - i
  {
    if i < |loaded| && loaded[i].id != id {
      FirstCopyIsFirst(loaded, id, i + 1);
    }
  }

  function SetCopy(loaded: seq<Loaded>, j: nat, l: Loaded): seq<Loaded> {
    if j < |loaded| then loaded[j := l] else loaded
  }

  /** What the correction starts from: the first loaded copy, else the stored row. */
  function EditTarget(c: Campaign, id: nat): Loaded
    requires id < |c.db.substrates|
  {
    var j := FirstCopy(c.loaded, id, 0);
    FirstCopyIsFirst(c.loaded, id, 0);
    if j < |c.loaded| then c.loaded[j] else Fresh(id, c.db.substrates[id].geometry, c.db.substrates[id].positions)
  }

  /** The geometry is set on the target; its positions, progress, sample rows and stored row follow. */
  function GeometryApplied(c: Campaign, id: nat, edit: Edit, positions: seq<real>): Campaign
    requires id < |c.db.substrates|
  {
    var l := EditTarget(c, id);
    var row := SubstrateRow(edit.On(c.db.substrates[id].geometry), positions);
    Campaign(
      SetSamples(c.db, id, Materialised(RootsOnly(SamplesOf(c.db, id)), positions)).(substrates := c.db.substrates[id := row]),
      SetCopy(c.loaded, FirstCopy(c.loaded, id, 0), Fresh(id, edit.On(l.geometry), positions)))
  }

  /** When the new positions cannot be computed the target's geometry has been set already. */
  function GeometryFailed(c: Campaign, id: nat, edit: Edit): Campaign
    requires id < |c.db.substrates|
  {
    var l := EditTarget(c, id);
    c.(loaded := SetCopy(c.loaded, FirstCopy(c.loaded, id, 0), l.(geometry := edit.On(l.geometry))))
  }

  /** Whether substrate `id` may be edited: it exists and, for its geometry, has no growth, retired or not. */
  function EditGate(c: Campaign, id: nat, edit: Edit): Option<Refusal> {
    if id >= |c.db.substrates| then Some(Unknown)
    else if edit.IsGeometry() && HasGrowth(c.db.growths, id) then Some(AlreadyGrown)
    else None
  }

  /** The geometry a correction starts from: that of the first loaded copy, else that of the row it fetched. */
  function TargetGeometry(c: Campaign, id: nat, fetched: Geometry): Geometry {
    var j := FirstCopy(c.loaded, id, 0);
    if j < |c.loaded| then c.loaded[j].geometry else fetched
  }

  /** A correction past its gate, when its positions are worked out from this geometry. */
  function EditAppliedUsing(stage: RheedStage, c: Campaign, id: nat, edit: Edit, g: Geometry): (Campaign, Option<Refusal>)
    requires id < |c.db.substrates|
  {
    if !edit.IsGeometry() then (c, None)
    else
      match PositionsFor(stage, edit.On(g), edit.Given())
      case Ok(positions) => (GeometryApplied(c, id, edit, positions), None)
      case Err(_) => (GeometryFailed(c, id, edit), Some(BadGeometry))
  }

  function EditApplied(stage: RheedStage, c: Campaign, id: nat, edit: Edit): (Campaign, Option<Refusal>)
    requires id < |c.db.substrates|
  {
    EditAppliedUsing(stage, c, id, edit, TargetGeometry(c, id, c.db.substrates[id].geometry))
  }

  function Updated(stage: RheedStage, c: Campaign, id: Option<nat>, edit: Edit): (Campaign, Option<Refusal>) {
    if id.None? && c.loaded == [] then (c, Some(NoCurrent))
    else
      var id := if id.Some? then id.value else Current(c).id;
      var refusal := EditGate(c, id, edit);
      if refusal.Some? then (c, refusal) else EditApplied(stage, c, id, edit)
  }

  // ----- runs --------------------------------------------------------------------------------------

  datatype Op =
    | Register(g: Geometry, given: seq<real>)
    | Record(substrate: nat, isPixel: bool, location: Option<int>)
    | Finish
    | Reopen(index: Option<int>, force: bool)
    | Resume(id: nat)
    | Unload
    | Retire(k: nat, retire: bool)
    | Update(target: Option<nat>, edit: Edit)

  function Apply(stage: RheedStage, c: Campaign, op: Op): Campaign {
    match op
    case Register(g, given) =>
      (match PositionsFor(stage, g, given)
       case Ok(positions) => Registered(c, g, positions)
       case Err(_) => c)
    case Record(substrate, isPixel, location) => Recorded(c, substrate, isPixel, location)
    case Finish => Finished(c)
    case Reopen(index, force) =>
      (match ReopenIndex(c, index, force)
       case Ok(i) => Reopened(c, i)
       case Err(_) => c)
    case Resume(id) => if id < |c.db.substrates| then Resumed(c, id) else c
    case Unload => Unloaded(c)
    case Retire(k, retire) => if k < |c.db.growths| then Retired(c, k, retire) else c
    case Update(target, edit) => Updated(stage, c, target, edit).0
  }

  function Run(stage: RheedStage, ops: seq<Op>): Campaign {
    if ops == [] then EMPTY else Apply(stage, Run(stage, ops[..|ops| - 1]), ops[|ops| - 1])
  }
}
