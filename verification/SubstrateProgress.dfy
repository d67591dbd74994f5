/** Which growth positions of a substrate are spent, and which comes next (class Substrate of
    src/lumi/experiment/manager.py). */
module SubstrateProgress {
  import opened Common
  import opened Positions

  /** The positions spent so far and the index of the current one, on a substrate with `n` positions. */
  datatype Progress = Progress(n: nat, accessed: set<nat>, current: nat)

  function Finish(p: Progress): Progress {
    p.(accessed := p.accessed + {p.current}, current := p.current + 1)
  }

  function Reopen(p: Progress, index: nat): Progress {
    p.(accessed := p.accessed - {index}, current := if index < p.current then index else p.current)
  }

  function Reset(n: nat): Progress {
    Progress(n, {}, 0)
  }

  /** The first index from `i` on that is not in `accessed`, or `n`. */
  function FirstFree(accessed: set<nat>, i: nat, n: nat): nat
    decreases n - i
  {
    if i >= n then n else if i !in accessed then i else FirstFree(accessed, i + 1, n)
  }

  function InRange(used: set<int>, n: nat): set<nat> {
    set i: nat | i < n && i in used
  }

  function Restore(p: Progress, used: set<int>): Progress {
    var accessed := InRange(used, p.n);
    p.(accessed := accessed, current := FirstFree(accessed, 0, p.n))
  }

  /** The current index is one that can be grown on next, or past the end: it is not spent. */
  predicate CurrentIsFree(p: Progress) {
    p.current !in p.accessed
  }

  /** Every index below the current one is spent: no free position is passed over. */
  ghost predicate NoneSkipped(p: Progress) {
    forall i: nat :: i < p.current ==> i in p.accessed
  }

  ghost predicate IsPrefix(p: Progress, k: nat) {
    forall i: nat :: i in p.accessed <==> i < k
  }

  lemma {:induction false} FirstFreeIsLeast(accessed: set<nat>, i: nat, n: nat)
    requires i <= n
    ensures var f := FirstFree(accessed, i, n);
            && i <= f <= n
            && (forall j: nat :: i <= j < f ==> j in accessed)
            && (f < n ==> f !in accessed)
    decreases n - i
  {
    if i < n && i in accessed {
      FirstFreeIsLeast(accessed, i + 1, n);
    }
  }

  /** Restoring lands on the least free index, or on the end when every position is spent. */
  lemma RestoreLandsOnLeastFree(p: Progress, used: set<int>)
    ensures var r := Restore(p, used);
            && r.n == p.n && r.accessed == InRange(used, p.n)
            && NoneSkipped(r) && CurrentIsFree(r) && r.current <= p.n
  {
    FirstFreeIsLeast(InRange(used, p.n), 0, p.n);
  }

  predicate IsGreatest(s: set<nat>, m: nat) {
    m in s && forall i :: i in s ==> i <= m
  }

  lemma GreatestWith(s: set<nat>, m: nat, x: nat)
    requires IsGreatest(s, m)
    ensures IsGreatest(s + {x}, if m < x then x else m)
  {
  }

  lemma {:induction false} GreatestExists(s: set<nat>) returns (m: nat)
    requires s != {}
    ensures IsGreatest(s, m)
    decreases |s|
  {
    m :| m in s;
    if s != {m} {
      var rest := GreatestExists(s - {m});
      GreatestWith(s - {m}, rest, m);
      assert s == s - {m} + {m};
      m := if rest < m then m else rest;
    }
  }

  lemma SomeIsGreatest(s: set<nat>)
    requires s != {}
    ensures exists m :: IsGreatest(s, m)
  {
    var m := GreatestExists(s);
  }

  /** The greatest spent index, if any is. */
  function LastFinished(accessed: set<nat>): Option<nat> {
    if accessed == {} then None
    else
      SomeIsGreatest(accessed);
      var m :| IsGreatest(accessed, m);
      Some(m)
  }

  class Substrate {
    var dbId: nat
    var geometry: Geometry
    var positions: seq<real>
    var accessed: set<nat>
    var current: nat

    function View(): Progress
      reads this
    {
      Progress(|positions|, accessed, current)
    }

    constructor (dbId: nat, geometry: Geometry, positions: seq<real>)
      ensures this.dbId == dbId && this.geometry == geometry && this.positions == positions && View() == Reset(|positions|)
    {
      this.dbId, this.geometry, this.positions, accessed, current := dbId, geometry, positions, {}, 0;
    }

    /** The position to grow on next, or none at the end. */
    method CurrentPosition() returns (valid: bool, position: Option<real>)
      ensures valid <==> current < |positions|
      ensures position == if valid then Some(positions[current]) else None
    {
      if current < |positions| {
        return true, Some(positions[current]);
      }
      return false, None;
    }

    /** The positions not yet spent, in order. */
    method AccessiblePositions() returns (free: seq<real>)
      ensures free == FreeFrom(positions, accessed, 0)
    {
      free := [];
      var i := 0;
      while i < |positions|
        invariant i <= |positions|
        invariant FreeFrom(positions, accessed, 0) == free + FreeFrom(positions, accessed, i)
      {
        if i !in accessed {
          free := free + [positions[i]];
        }
        i := i + 1;
      }
    }

    method FinishCurrentPosition()
      modifies this`accessed, this`current
      ensures View() == Finish(old(View()))
    {
      accessed := accessed + {current};
      current := current + 1;
    }

    method ReopenPosition(index: nat)
      modifies this`accessed, this`current
      ensures View() == Reopen(old(View()), index)
    {
      accessed := accessed - {index};
      if index < current {
        current := index;
      }
    }

    method LastFinishedPosition() returns (last: Option<nat>)
      ensures last.None? <==> accessed == {}
      ensures last.Some? ==> last.value in accessed && forall i :: i in accessed ==> i <= last.value
    {
      last := LastFinished(accessed);
    }

    method ResetProgress()
      modifies this`accessed, this`current
      ensures View() == Reset(|positions|)
    {
      accessed, current := {}, 0;
    }

    method RestoreProgress(used: set<int>)
      modifies this`accessed, this`current
      ensures View() == Restore(old(View()), used)
    {
      accessed := set i: nat | i < |positions| && i in used;
      current := 0;
      while current < |positions| && current in accessed
        invariant current <= |positions| && accessed == InRange(used, |positions|)
        invariant FirstFree(accessed, 0, |positions|) == FirstFree(accessed, current, |positions|)
      {
        current := current + 1;
      }
    }
  }

  /** The positions from index `i` on that are not spent. */
  function FreeFrom(positions: seq<real>, accessed: set<nat>, i: nat): seq<real>
    requires i <= |positions|
    decreases |positions| - i
  {
    if i == |positions| then []
    else (if i in accessed then [] else [positions[i]]) + FreeFrom(positions, accessed, i + 1)
  }

  lemma {:induction false} FreeFromSkipsSpent(positions: seq<real>, accessed: set<nat>, i: nat, j: nat)
    requires i <= j <= |positions| && forall k: nat :: i <= k < j ==> k in accessed
    ensures FreeFrom(positions, accessed, i) == FreeFrom(positions, accessed, j)
    decreases j - i
  {
    if i < j {
      FreeFromSkipsSpent(positions, accessed, i + 1, j);
    }
  }

  /** When the current index is free and nothing was skipped, the current position heads the free ones; at the
      end there are none. */
  lemma CurrentHeadsTheFree(positions: seq<real>, p: Progress)
    requires p.n == |positions| && p.current <= p.n && NoneSkipped(p) && CurrentIsFree(p)
    ensures var free := FreeFrom(positions, p.accessed, 0);
            if p.current < p.n then free != [] && free[0] == positions[p.current] else free == []
  {
    FreeFromSkipsSpent(positions, p.accessed, 0, p.current);
  }

  // ----- runs -----------------------------------------------------------------------------

  datatype Op = FinishOp | ReopenOp(index: nat) | ResetOp(n: nat) | RestoreOp(used: set<int>)

  function Apply(p: Progress, op: Op): Progress {
    match op
    case FinishOp => Finish(p)
    case ReopenOp(index) => Reopen(p, index)
    case ResetOp(n) => Reset(n)
    case RestoreOp(used) => Restore(p, used)
  }

  function Run(p: Progress, ops: seq<Op>): Progress {
    if ops == [] then p else Apply(Run(p, ops[..|ops| - 1]), ops[|ops| - 1])
  }

  /** In any run, every index below the current one is spent. */
  lemma {:induction false} NoneSkippedAlways(n: nat, ops: seq<Op>)
    ensures NoneSkipped(Run(Reset(n), ops))
  {
    if ops != [] {
      var p := Run(Reset(n), ops[..|ops| - 1]);
      NoneSkippedAlways(n, ops[..|ops| - 1]);
      if ops[|ops| - 1].RestoreOp? {
        RestoreLandsOnLeastFree(p, ops[|ops| - 1].used);
      }
    }
  }

  /** Exactly when an operation leaves the current index free. */
  lemma FreeAfterExactly(n: nat, ops: seq<Op>, op: Op)
    ensures var p := Run(Reset(n), ops);
            CurrentIsFree(Apply(p, op)) <==>
              match op
              case FinishOp => p.current + 1 !in p.accessed
              case ReopenOp(index) => index <= p.current || CurrentIsFree(p)
              case ResetOp(_) => true
              case RestoreOp(_) => true
  {
    if op.RestoreOp? {
      RestoreLandsOnLeastFree(Run(Reset(n), ops), op.used);
    }
  }

  /** In every state of the run the spent indices are a prefix. */
  ghost predicate PrefixThroughout(n: nat, ops: seq<Op>) {
    && (exists k: nat :: IsPrefix(Run(Reset(n), ops), k))
    && (ops == [] || PrefixThroughout(n, ops[..|ops| - 1]))
  }

  lemma PrefixKeepsCurrentFree(p: Progress, op: Op, k: nat, k': nat)
    requires NoneSkipped(p) && CurrentIsFree(p) && IsPrefix(p, k) && IsPrefix(Apply(p, op), k')
    ensures CurrentIsFree(Apply(p, op))
  {
    assert p.current == k by {
      assert k !in p.accessed;
    }
    match op {
      case RestoreOp(used) => RestoreLandsOnLeastFree(p, used);
      case ReopenOp(index) =>
        if index < k && index + 1 < k {
          assert index + 1 in Apply(p, op).accessed && index !in Apply(p, op).accessed;
        }
      case _ =>
    }
  }

  /** While the spent indices stay a prefix, the current index is the first free one. */
  lemma {:induction false} CurrentFreeOnPrefixes(n: nat, ops: seq<Op>)
    requires PrefixThroughout(n, ops)
    ensures CurrentIsFree(Run(Reset(n), ops))
  {
    if ops != [] {
      var before, op := ops[..|ops| - 1], ops[|ops| - 1];
      CurrentFreeOnPrefixes(n, before);
      NoneSkippedAlways(n, before);
      var k: nat :| IsPrefix(Run(Reset(n), before), k);
      var k': nat :| IsPrefix(Run(Reset(n), ops), k');
      PrefixKeepsCurrentFree(Run(Reset(n), before), op, k, k');
    }
  }

  /** After an earlier position is reopened and finished again, the current index can be a spent one. */
  lemma FinishCanLandOnSpent(n: nat)
    ensures var p := Finish(Reopen(Finish(Finish(Finish(Reset(n)))), 0));
            p.current == 1 && !CurrentIsFree(p)
  {
  }

  // ----- what each operation does --------------------------------------------------------------

  /** Which indices are spent after an operation, and which one is current. */
  lemma SpentAfterExactly(p: Progress, op: Op, i: nat)
    ensures i in Apply(p, op).accessed <==>
              match op
              case FinishOp => i == p.current || i in p.accessed
              case ReopenOp(index) => i != index && i in p.accessed
              case ResetOp(_) => false
              case RestoreOp(used) => i < p.n && i in used
    ensures op.FinishOp? ==> Apply(p, op).current == p.current + 1
    ensures op.ReopenOp? ==> Apply(p, op).current <= p.current && Apply(p, op).current <= op.index && Apply(p, op).current in {p.current, op.index}
    ensures op.ResetOp? ==> Apply(p, op).current == 0
  {
  }

  /** How many indices from `i` up to `k` are free. */
  function FreeBetween(accessed: set<nat>, i: nat, k: nat): nat
    requires i <= k
  {
    if i == k then 0 else FreeBetween(accessed, i, k - 1) + (if k - 1 in accessed then 0 else 1)
  }

  lemma {:induction false} FreeBetweenFront(accessed: set<nat>, i: nat, k: nat)
    requires i < k
    ensures FreeBetween(accessed, i, k) == (if i in accessed then 0 else 1) + FreeBetween(accessed, i + 1, k)
  {
    if i < k - 1 {
      FreeBetweenFront(accessed, i, k - 1);
    }
  }

  /** The free positions are as many as the free indices, and each of these has its position at its place among them. */
  lemma {:induction false} FreeFromExactly(positions: seq<real>, accessed: set<nat>, i: nat, k: nat)
    requires i <= k <= |positions|
    ensures |FreeFrom(positions, accessed, i)| == FreeBetween(accessed, i, |positions|)
    ensures k < |positions| && k !in accessed ==>
              && FreeBetween(accessed, i, k) < |FreeFrom(positions, accessed, i)|
              && FreeFrom(positions, accessed, i)[FreeBetween(accessed, i, k)] == positions[k]
    decreases |positions| - i
  {
    if i < |positions| {
      FreeBetweenFront(accessed, i, |positions|);
      if i < k {
        FreeBetweenFront(accessed, i, k);
        FreeFromExactly(positions, accessed, i + 1, k);
      } else {
        FreeFromExactly(positions, accessed, i + 1, i + 1);
      }
    }
  }
}
