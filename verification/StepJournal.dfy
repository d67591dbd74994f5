/** The step journal: rows opened and closed around what the driver does, each pointing at the step begun before it
    (src/lumi/experiment/journal.py, lines 80-160; src/lumi/experiment/db.py, lines 938-975). */
module StepJournal {
  import opened Common

  /** A row: its parent, and how often its end was written. */
  datatype StepRow = StepRow(parent: Option<nat>, ends: nat)

  /** The step begun last in this session, and the table; rows are identified by their place. */
  datatype State = State(last: Option<nat>, rows: seq<StepRow>)

  const EMPTY: State := State(None, [])

  /** A begin that read `parent` some time before inserts its row; when the database refuses nothing changes. */
  function Inserted(s: State, parent: Option<nat>, stored: bool): State {
    if stored then s.(rows := s.rows + [StepRow(parent, 0)]) else s
  }

  /** The insert is committed: its row becomes the last step. */
  function Settled(s: State, row: nat): State {
    s.(last := Some(row))
  }

  /** A begin in which nothing comes between the two. */
  function Begun(s: State, parent: Option<nat>, stored: bool): State {
    if stored then Settled(Inserted(s, parent, true), |s.rows|) else s
  }

  function Finished(s: State, step: Option<nat>, stored: bool): State {
    if step.Some? && step.value < |s.rows| && stored then
      s.(rows := s.rows[step.value := s.rows[step.value].(ends := s.rows[step.value].ends + 1)])
    else s
  }

  class Journal {
    var last: Option<nat>
    var rows: seq<StepRow>

    function View(): State
      reads this
    {
      State(last, rows)
    }

    constructor ()
      ensures View() == EMPTY
    {
      last, rows := None, [];
    }

    /** `parent` is what `last` was when the begin was called: looking up the sample suspends in between. */
    method Insert(parent: Option<nat>, stored: bool) returns (step: Option<nat>)
      modifies this`rows
      ensures View() == Inserted(old(View()), parent, stored)
      ensures step == if stored then Some(old(|rows|)) else None
    {
      if !stored {
        return None;
      }
      step := Some(|rows|);
      rows := rows + [StepRow(parent, 0)];
    }

    /** After the commit, which suspends once more. */
    method Settle(row: nat)
      modifies this`last
      ensures View() == Settled(old(View()), row)
    {
      last := Some(row);
    }

    /** A begin that nothing interrupts between its insert and its return. */
    method Begin(parent: Option<nat>, stored: bool) returns (step: Option<nat>)
      modifies this
      ensures View() == Begun(old(View()), parent, stored)
      ensures step == if stored then Some(old(|rows|)) else None
    {
      step := Insert(parent, stored);
      if step.Some? {
        Settle(step.value);
      }
    }

    /** Without a row there is nothing to end. */
    method End(step: Option<nat>, stored: bool)
      modifies this`rows
      ensures View() == Finished(old(View()), step, stored)
    {
      if step.None? || step.value >= |rows| || !stored {
        return;
      }
      var row := rows[step.value];
      rows := rows[step.value := row.(ends := row.ends + 1)];
    }
  }

  // ----- every interleaving of begins ---------------------------------------------------------

  /** A begin that has read its parent: that, and what there was by then -- the rows, the session and which steps of
      the session had settled, in order. */
  datatype Reading = Reading(parent: Option<nat>, rowsThen: nat, session: nat, settledThen: seq<nat>)

  /** The journal, the begins that have read their parent, the rows of those that have inserted and not settled, how
      many sessions were opened, how many rows there were when the present one was, and what settled in it. */
  datatype System = System(s: State, reading: map<nat, Reading>, inserting: map<nat, nat>, sessions: nat, rowsBefore: nat, settled: seq<nat>)

  const IDLE: System := System(EMPTY, map[], map[], 0, 0, [])

  /** A begin is a read, an insert and a settling, with anything in between; one whose commit fails, or whose caller is
      cancelled, just never settles. */
  datatype Op = OpenSession | Read(id: nat) | Insert(id: nat, stored: bool) | Settle(id: nat) | Finish(step: Option<nat>, stored: bool)

  function Next(j: System, op: Op): System {
    match op
    case OpenSession => j.(s := j.s.(last := None), sessions := j.sessions + 1, rowsBefore := |j.s.rows|, settled := [])
    case Read(id) =>
      if id in j.reading || id in j.inserting then j
      else j.(reading := j.reading[id := Reading(j.s.last, |j.s.rows|, j.sessions, j.settled)])
    case Insert(id, stored) =>
      if id in j.reading then
        j.(s := Inserted(j.s, j.reading[id].parent, stored), reading := j.reading - {id},
           inserting := if stored then j.inserting[id := |j.s.rows|] else j.inserting)
      else j
    case Settle(id) =>
      if id in j.inserting then
        j.(s := Settled(j.s, j.inserting[id]), inserting := j.inserting - {id}, settled := j.settled + [j.inserting[id]])
      else j
    case Finish(step, stored) => j.(s := Finished(j.s, step, stored))
  }

  function Run(ops: seq<Op>): System {
    if ops == [] then IDLE else Next(Run(ops[..|ops| - 1]), ops[|ops| - 1])
  }

  ghost predicate AllBelow(rows: seq<nat>, n: nat) {
    forall i :: 0 <= i < |rows| ==> rows[i] < n
  }

  function LastOf(settled: seq<nat>): Option<nat> {
    if settled == [] then None else Some(settled[|settled| - 1])
  }

  /** Parents are earlier rows, and the last step is the one that settled last. */
  ghost predicate ParentsAreEarlier(j: System) {
    && (forall k :: 0 <= k < |j.s.rows| && j.s.rows[k].parent.Some? ==> j.s.rows[k].parent.value < k)
    && j.s.last == LastOf(j.settled) && AllBelow(j.settled, |j.s.rows|) && j.rowsBefore <= |j.s.rows|
    && (forall id :: id in j.inserting ==> j.inserting[id] < |j.s.rows|)
    && (forall id :: id in j.reading ==> ReadingIsOld(j, j.reading[id]))
  }

  ghost predicate ReadingIsOld(j: System, r: Reading) {
    && r.parent == LastOf(r.settledThen) && AllBelow(r.settledThen, r.rowsThen)
    && r.rowsThen <= |j.s.rows| && r.session <= j.sessions && (r.session == j.sessions ==> j.rowsBefore <= r.rowsThen)
  }

  lemma StepKeepsParents(j: System, op: Op)
    requires ParentsAreEarlier(j)
    ensures ParentsAreEarlier(Next(j, op))
  {
  }

  /** In every interleaving the parents form a forest: each row's parent was begun before it. */
  lemma {:induction false} ParentsAreEarlierAlways(ops: seq<Op>)
    ensures ParentsAreEarlier(Run(ops))
  {
    if ops != [] {
      ParentsAreEarlierAlways(ops[..|ops| - 1]);
      StepKeepsParents(Run(ops[..|ops| - 1]), ops[|ops| - 1]);
    }
  }

  // ----- when the parent is the row begun last ----------------------------------------------------

  /** The newest row since the session was opened. */
  function Newest(j: System): Option<nat> {
    if |j.s.rows| <= j.rowsBefore then None else Some(|j.s.rows| - 1)
  }

  /** In every interleaving, the row a begin inserts in the session it was called in points at the row begun last
      before it if and only if no row was inserted since it read its parent, and by that read the row begun last had
      settled, after every other (or, if there was none, nothing had). */
  lemma ParentIsLastBegunExactly(ops: seq<Op>, id: nat)
    requires id in Run(ops).reading && Run(ops).reading[id].session == Run(ops).sessions
    ensures var j, j', r := Run(ops), Next(Run(ops), Insert(id, true)), Run(ops).reading[id];
            && |j'.s.rows| == |j.s.rows| + 1
            && (j'.s.rows[|j.s.rows|].parent == Newest(j) <==> r.rowsThen == |j.s.rows| && LastOf(r.settledThen) == Newest(j))
  {
    ParentsAreEarlierAlways(ops);
    assert ReadingIsOld(Run(ops), Run(ops).reading[id]);
  }

  /** Steps settle in the order of their rows, as they do while one connection commits them one by one. */
  ghost predicate SettlesInOrder(settled: seq<nat>) {
    forall i, k :: 0 <= i < k < |settled| ==> settled[i] < settled[k]
  }

  /** No begin of another session still settles in this one. */
  ghost predicate SettlesOwn(j: System) {
    forall i :: 0 <= i < |j.settled| ==> j.rowsBefore <= j.settled[i]
  }

  ghost predicate ReadingsArePrefixes(j: System) {
    forall id :: id in j.reading && j.reading[id].session == j.sessions ==> j.reading[id].settledThen <= j.settled
  }

  lemma {:induction false} ReadingsArePrefixesAlways(ops: seq<Op>)
    ensures ReadingsArePrefixes(Run(ops))
    ensures forall id :: id in Run(ops).reading ==> Run(ops).reading[id].session <= Run(ops).sessions
  {
    if ops != [] {
      ReadingsArePrefixesAlways(ops[..|ops| - 1]);
    }
  }

  lemma NewestIsLastOf(settled: seq<nat>, n: nat)
    requires SettlesInOrder(settled) && AllBelow(settled, n + 1)
    ensures LastOf(settled) == Some(n) <==> n in settled
  {
  }

  lemma SettledNewestExactly(settled: seq<nat>, before: seq<nat>, start: nat, rows: nat)
    requires SettlesInOrder(settled) && before <= settled && AllBelow(before, rows) && start <= rows
    requires forall i :: 0 <= i < |settled| ==> start <= settled[i]
    ensures LastOf(before) == (if rows == start then None else Some((rows - 1) as nat)) <==> (rows > start ==> rows - 1 in before)
  {
    assert forall i :: 0 <= i < |before| ==> before[i] == settled[i];
    if rows > start { NewestIsLastOf(before, rows - 1); }
  }

  /** When steps settle in order: if and only if no row was inserted since the read and by the read the row begun last
      had settled. */
  lemma ParentIsLastBegunInOrder(ops: seq<Op>, id: nat)
    requires id in Run(ops).reading && Run(ops).reading[id].session == Run(ops).sessions
    requires SettlesInOrder(Run(ops).settled) && SettlesOwn(Run(ops))
    ensures var j, j', r := Run(ops), Next(Run(ops), Insert(id, true)), Run(ops).reading[id];
            && |j'.s.rows| == |j.s.rows| + 1
            && (j'.s.rows[|j.s.rows|].parent == Newest(j) <==>
                r.rowsThen == |j.s.rows| && (|j.s.rows| > j.rowsBefore ==> |j.s.rows| - 1 in r.settledThen))
  {
    var j, r := Run(ops), Run(ops).reading[id];
    ParentsAreEarlierAlways(ops);
    ReadingsArePrefixesAlways(ops);
    ParentIsLastBegunExactly(ops, id);
    assert ReadingIsOld(j, r);
    if r.rowsThen == |j.s.rows| { SettledNewestExactly(j.settled, r.settledThen, j.rowsBefore, |j.s.rows|); }
  }

  // ----- chains ---------------------------------------------------------------------------------

  /** When it read its parent, a row had been inserted that had not settled. */
  ghost predicate ReadUnsettled(r: Reading) {
    exists k :: 0 <= k < r.rowsThen && k !in r.settledThen
  }

  /** An op that stores a row although another was inserted since its begin read its parent, or had been inserted and
      not settled by that read. */
  ghost predicate IsLateInsert(j: System, op: Op) {
    && op.Insert? && op.stored && op.id in j.reading
    && (j.reading[op.id].rowsThen != |j.s.rows| || ReadUnsettled(j.reading[op.id]))
  }

  ghost predicate NoLateInsert(ops: seq<Op>) {
    ops == [] || (NoLateInsert(ops[..|ops| - 1]) && !IsLateInsert(Run(ops[..|ops| - 1]), ops[|ops| - 1]))
  }

  ghost predicate OneSession(ops: seq<Op>) {
    forall i :: 0 <= i < |ops| ==> !ops[i].OpenSession?
  }

  /** Each row's parent is the row begun just before it. */
  ghost predicate IsChain(rows: seq<StepRow>) {
    forall k :: 0 <= k < |rows| ==> rows[k].parent == if k == 0 then None else Some((k - 1) as nat)
  }

  ghost predicate CountsUp(settled: seq<nat>) {
    forall i :: 0 <= i < |settled| ==> settled[i] == i
  }

  /** While no insert is late, steps settle one by one in the order of their rows, and only the newest row can be
      unsettled. */
  ghost predicate InStep(j: System) {
    && CountsUp(j.settled) && |j.settled| <= |j.s.rows| <= |j.settled| + 1
    && (forall id :: id in j.inserting ==> j.inserting[id] == |j.settled| == |j.s.rows| - 1)
    && (forall a, b :: a in j.inserting && b in j.inserting ==> a == b)
    && (forall id :: id in j.reading ==> ReadInStep(j.reading[id]) && |j.reading[id].settledThen| <= |j.settled|)
  }

  ghost predicate ReadInStep(r: Reading) {
    CountsUp(r.settledThen) && |r.settledThen| <= r.rowsThen <= |r.settledThen| + 1
  }

  /** Of such a begin, whether all rows had settled by its read. */
  lemma UnsettledExactly(r: Reading)
    requires ReadInStep(r)
    ensures ReadUnsettled(r) <==> |r.settledThen| < r.rowsThen
  {
    assert forall k :: 0 <= k < |r.settledThen| ==> r.settledThen[k] == k;
    if |r.settledThen| < r.rowsThen {
      assert |r.settledThen| !in r.settledThen;
    } else {
      forall k | 0 <= k < r.rowsThen ensures k in r.settledThen {
        assert r.settledThen[k] == k;
      }
    }
  }

  lemma ChainOfAppend(rows: seq<StepRow>, row: StepRow)
    ensures IsChain(rows + [row]) <==> IsChain(rows) && row.parent == if rows == [] then None else Some((|rows| - 1) as nat)
  {
    var all := rows + [row];
    assert forall k :: 0 <= k < |rows| ==> all[k] == rows[k];
    assert all[|rows|] == row;
  }

  lemma ChainOfSameParents(a: seq<StepRow>, b: seq<StepRow>)
    requires |a| == |b| && forall k :: 0 <= k < |a| ==> a[k].parent == b[k].parent
    ensures IsChain(a) <==> IsChain(b)
  {
  }

  lemma StepStaysInStep(j: System, op: Op)
    requires InStep(j) && ParentsAreEarlier(j) && !op.OpenSession? && !IsLateInsert(j, op)
    ensures InStep(Next(j, op))
  {
    if op.Insert? && op.id in j.reading {
      assert ReadInStep(j.reading[op.id]) && ReadingIsOld(j, j.reading[op.id]);
      UnsettledExactly(j.reading[op.id]);
    }
  }

  lemma ChainGrowsExactly(j: System, op: Op)
    requires InStep(j) && ParentsAreEarlier(j)
    ensures IsChain(Next(j, op).s.rows) <==> IsChain(j.s.rows) && !IsLateInsert(j, op)
  {
    if op.Insert? && op.stored && op.id in j.reading {
      var r := j.reading[op.id];
      assert ReadInStep(r) && ReadingIsOld(j, r);
      UnsettledExactly(r);
      ChainOfAppend(j.s.rows, StepRow(r.parent, 0));
    } else {
      ChainOfSameParents(j.s.rows, Next(j, op).s.rows);
    }
  }

  /** A chain is a chain of its first rows. */
  lemma ChainShrinks(j: System, op: Op)
    requires IsChain(Next(j, op).s.rows)
    ensures IsChain(j.s.rows)
  {
    if op.Insert? && op.stored && op.id in j.reading {
      ChainOfAppend(j.s.rows, StepRow(j.reading[op.id].parent, 0));
    } else {
      ChainOfSameParents(j.s.rows, Next(j, op).s.rows);
    }
  }

  /** In a session the parents are the chain of starts, however long the steps stay open, if and only if no begin
      stored its row after another had been inserted since it read its parent, or while at that read another was
      inserted and not settled. */
  lemma {:induction false} ChainExactly(ops: seq<Op>)
    requires OneSession(ops)
    ensures IsChain(Run(ops).s.rows) <==> NoLateInsert(ops)
    ensures NoLateInsert(ops) ==> InStep(Run(ops))
  {
    if ops != [] {
      var before, op := ops[..|ops| - 1], ops[|ops| - 1];
      ChainExactly(before);
      ParentsAreEarlierAlways(before);
      if NoLateInsert(before) {
        ChainGrowsExactly(Run(before), op);
        if !IsLateInsert(Run(before), op) { StepStaysInStep(Run(before), op); }
      } else if IsChain(Run(ops).s.rows) {
        ChainShrinks(Run(before), op);
      }
    }
  }

  /** A begin is called only when none is under way and every row has settled. */
  ghost predicate OneAtATime(ops: seq<Op>) {
    ops == []
    || (OneAtATime(ops[..|ops| - 1])
        && (ops[|ops| - 1].Read? ==> Run(ops[..|ops| - 1]).reading == map[] && AllSettled(Run(ops[..|ops| - 1]))))
  }

  ghost predicate AllSettled(j: System) {
    forall k :: 0 <= k < |j.s.rows| ==> k in j.settled
  }

  /** The begin under way, if there is one, has read what there still is, and all of it settled. */
  ghost predicate OnlyOne(j: System) {
    && (forall a, b :: a in j.reading && b in j.reading ==> a == b)
    && (forall id :: id in j.reading ==> j.reading[id].rowsThen == |j.s.rows| && !ReadUnsettled(j.reading[id]))
  }

  lemma {:induction false} OneAtATimeIsNeverLate(ops: seq<Op>)
    requires OneAtATime(ops)
    ensures NoLateInsert(ops) && OnlyOne(Run(ops))
  {
    if ops != [] {
      OneAtATimeIsNeverLate(ops[..|ops| - 1]);
    }
  }

  /** So with one begin at a time they are. */
  lemma ParentsChainInStartOrder(ops: seq<Op>)
    requires OneSession(ops) && OneAtATime(ops)
    ensures IsChain(Run(ops).s.rows)
  {
    OneAtATimeIsNeverLate(ops);
    ChainExactly(ops);
  }

  // ----- the two ways to break it ------------------------------------------------------------------

  /** Two begins that overlap, wherever they do, get the same parent, and the second row does not point at the first. */
  lemma OverlappingBeginsShareParent(j: System, a: nat, b: nat)
    requires a != b && {a, b} !! (j.reading.Keys + j.inserting.Keys)
    ensures var j' := Next(Next(Next(Next(j, Read(a)), Read(b)), Insert(a, true)), Insert(b, true));
            var n := |j.s.rows|;
            |j'.s.rows| == n + 2 && j'.s.rows[n].parent == j'.s.rows[n + 1].parent == j.s.last
  {
    assert a in {a, b} && b in {a, b};
  }

  /** So does a begin called while another's row is inserted and not committed, even if it inserts its own only after
      that has settled and no row came in between: it points past the row begun last. */
  lemma ReadBeforeCommitSharesParent(j: System, a: nat, b: nat)
    requires a != b && {a, b} !! (j.reading.Keys + j.inserting.Keys) && ParentsAreEarlier(j)
    ensures var n, read := |j.s.rows|, Next(Next(Next(j, Read(a)), Insert(a, true)), Read(b));
            var settled := Next(read, Settle(a));
            var j' := Next(settled, Insert(b, true));
            && b in settled.reading && settled.reading[b].rowsThen == |settled.s.rows| == n + 1 && settled.s.last == Some(n)
            && IsLateInsert(settled, Insert(b, true))
            && |j'.s.rows| == n + 2 && j'.s.rows[n].parent == j'.s.rows[n + 1].parent == j.s.last
  {
    assert a in {a, b} && b in {a, b};
    var settled := Next(Next(Next(Next(j, Read(a)), Insert(a, true)), Read(b)), Settle(a));
    assert |j.s.rows| !in settled.reading[b].settledThen;
  }

  // ----- ends -----------------------------------------------------------------------------------------

  /** How many ends of row `k` were stored once it was there. */
  function EndsOf(ops: seq<Op>, k: nat): nat {
    if ops == [] then 0
    else
      var before, op := ops[..|ops| - 1], ops[|ops| - 1];
      EndsOf(before, k) + (if op == Finish(Some(k), true) && k < |Run(before).s.rows| then 1 else 0)
  }

  /** In every run each row was ended as often as an end of it was stored, and an end of no row does nothing. */
  lemma {:induction false} EndsAreCounted(ops: seq<Op>, k: nat)
    ensures k >= |Run(ops).s.rows| ==> EndsOf(ops, k) == 0
    ensures k < |Run(ops).s.rows| ==> Run(ops).s.rows[k].ends == EndsOf(ops, k)
  {
    if ops != [] {
      EndsAreCounted(ops[..|ops| - 1], k);
    }
  }

  /** A settling makes its own row the last step, whatever settled since it was inserted; a begin reads what is last. */
  lemma SettlesAndReads(ops: seq<Op>, id: nat)
    ensures var j := Run(ops);
            id in j.inserting ==> Next(j, Settle(id)).s.last == Some(j.inserting[id]) && Next(j, Settle(id)).s.rows == j.s.rows
    ensures var j := Run(ops);
            id !in j.inserting && id !in j.reading ==> id in Next(j, Read(id)).reading && Next(j, Read(id)).reading[id].parent == j.s.last
  {
  }
}
