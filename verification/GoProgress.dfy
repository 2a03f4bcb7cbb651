/** The Go store never deadlocks, and pending calls drain when no new ones arrive. */
module GoProgress {
  import GoStore
  import opened GoProtocol

  /** With the lock order `flushMutex` before `mu`, whenever a call is pending some thread can
      take its next step. */
  lemma SomeThreadCanStep(c: Config, pending: nat) returns (t: nat)
    requires LocksOk(c) && pending < |c.pcs| && !Free(c.pcs[pending])
    ensures Enabled(c, Advance(t))
  {
    if c.mu.Some? {
      t := c.mu.value;
    } else if c.pcs[pending].FlushWait? && c.flushMutex.Some? {
      t := c.flushMutex.value;
    } else {
      t := pending;
    }
  }

  /** A thread that is not in a call can make any call, and a segment write can end either way. */
  lemma OutcomesAreFree(c: Config, t: nat, request: Request, landed: bool)
    requires t < |c.pcs|
    ensures Free(c.pcs[t]) ==> Enabled(c, Invoke(t, request))
    ensures c.pcs[t].FlushWrite? ==> Enabled(c, Advance(t)) && Enabled(c, WriteFails(t, landed))
  {
  }

  /** Flushes that may still freeze, and so add a segment. */
  function MayFreeze(pcs: seq<PC>): nat {
    if pcs == [] then 0
    else MayFreeze(pcs[..|pcs| - 1]) + if CanFreeze(pcs[|pcs| - 1]) then 1 else 0
  }

  predicate CanFreeze(pc: PC) {
    pc.FlushWait? || pc.FlushGate? || pc.FlushHeld?
  }

  /** No Get will have to scan more segments than this. */
  function Bound(c: Config): nat {
    c.world.store.flushID + MayFreeze(c.pcs)
  }

  /** An upper bound on the steps that a thread still has to take. */
  function Weight(pc: PC, bound: nat): nat {
    match pc
    case Ready => 0
    case Returned(_) => 0
    case PutWait(_, _) => 2
    case PutHeld(_, _) => 1
    case GetWait(_, _) => bound + 3
    case GetHeld(_, _) => bound + 2
    case GetScan(_, _, i) => i + 1
    case FlushWait => 6
    case FlushGate => 5
    case FlushHeld => 4
    case FlushWrite(_, _) => 3
    case FlushRelock => 2
    case FlushClear => 1
  }

  function Total(pcs: seq<PC>, bound: nat): nat {
    if pcs == [] then 0 else Total(pcs[..|pcs| - 1], bound) + Weight(pcs[|pcs| - 1], bound)
  }

  function Measure(c: Config): nat {
    Total(c.pcs, Bound(c))
  }

  lemma {:induction false} MayFreezeAfter(pcs: seq<PC>, t: nat, pc: PC)
    requires t < |pcs|
    ensures MayFreeze(pcs[t := pc])
            == MayFreeze(pcs) - (if CanFreeze(pcs[t]) then 1 else 0) + (if CanFreeze(pc) then 1 else 0)
  {
    var n := |pcs| - 1;
    if t < n {
      MayFreezeAfter(pcs[..n], t, pc);
      assert pcs[t := pc][..n] == pcs[..n][t := pc];
    } else {
      assert pcs[t := pc][..n] == pcs[..n];
    }
  }

  lemma {:induction false} TotalGrowsWithBound(pcs: seq<PC>, low: nat, high: nat)
    requires low <= high
    ensures Total(pcs, low) <= Total(pcs, high)
  {
    if pcs == [] {
    } else {
      TotalGrowsWithBound(pcs[..|pcs| - 1], low, high);
    }
  }

  lemma {:induction false} TotalAfter(pcs: seq<PC>, t: nat, pc: PC, bound: nat)
    requires t < |pcs|
    ensures Total(pcs[t := pc], bound) == Total(pcs, bound) - Weight(pcs[t], bound) + Weight(pc, bound)
  {
    var n := |pcs| - 1;
    if t < n {
      TotalAfter(pcs[..n], t, pc, bound);
      assert pcs[t := pc][..n] == pcs[..n][t := pc];
    } else {
      assert pcs[t := pc][..n] == pcs[..n];
    }
  }

  lemma FlushStepLowersWeight(c: Config, a: Action, bound: nat)
    requires Enabled(c, a) && !a.Invoke? && GoStore.Readable(c.world.store)
    requires c.pcs[a.t].FlushWait? || HoldsFlushMutex(c.pcs[a.t])
    ensures var c' := Do(c, a);
            && a.t < |c'.pcs|
            && Weight(c'.pcs[a.t], bound) < Weight(c.pcs[a.t], bound)
            && c'.world.store.flushID + (if CanFreeze(c'.pcs[a.t]) then 1 else 0)
               <= c.world.store.flushID + (if CanFreeze(c.pcs[a.t]) then 1 else 0)
  {
  }

  /** What one step does to the segment counter and to its thread's weight. */
  lemma StepLowersWeight(c: Config, a: Action, bound: nat)
    requires Enabled(c, a) && !a.Invoke? && GoStore.Readable(c.world.store)
    requires c.world.store.flushID <= bound
    ensures var c' := Do(c, a);
            && a.t < |c'.pcs|
            && Weight(c'.pcs[a.t], bound) < Weight(c.pcs[a.t], bound)
            && c'.world.store.flushID + (if CanFreeze(c'.pcs[a.t]) then 1 else 0)
               <= c.world.store.flushID + (if CanFreeze(c.pcs[a.t]) then 1 else 0)
  {
    if c.pcs[a.t].FlushWait? || HoldsFlushMutex(c.pcs[a.t]) {
      FlushStepLowersWeight(c, a, bound);
    }
  }

  /** Every step other than a new call lowers the measure, also a freeze that makes waiting
      Gets scan one segment more. */
  lemma StepLowersMeasure(c: Config, a: Action)
    requires Inv(c) && Enabled(c, a) && !a.Invoke? && GoStore.Readable(c.world.store)
    ensures Measure(Do(c, a)) < Measure(c)
  {
    var c' := Do(c, a);
    StepMovesOneThread(c, a);
    StepLowersWeight(c, a, Bound(c));
    MayFreezeAfter(c.pcs, a.t, c'.pcs[a.t]);
    TotalAfter(c.pcs, a.t, c'.pcs[a.t], Bound(c));
    TotalGrowsWithBound(c'.pcs, Bound(c'), Bound(c));
  }

  /** Some steps of the threads after which no new call has been made. */
  ghost predicate IsDrain(run: seq<Config>, acts: seq<Action>) {
    && |run| == |acts| + 1
    && Inv(run[0])
    && forall j | 0 <= j < |acts| :: StepAt(run, acts, j) && !acts[j].Invoke?
  }

  /** By state `j` the measure has gone down at least `j` times. */
  ghost predicate Drained(run: seq<Config>, j: nat)
    requires j < |run|
  {
    Inv(run[j]) && j + Measure(run[j]) <= Measure(run[0])
  }

  lemma DrainStarts(run: seq<Config>, acts: seq<Action>)
    requires IsDrain(run, acts)
    ensures Drained(run, 0)
  {
  }

  lemma DrainStep(run: seq<Config>, acts: seq<Action>, j: nat)
    requires IsDrain(run, acts) && 0 < j < |run| && Drained(run, j - 1)
    ensures Drained(run, j)
  {
    assert StepAt(run, acts, j - 1);
    IsStepKeepsInv(run[j - 1], acts[j - 1], run[j]);
    StepLowersMeasure(run[j - 1], acts[j - 1]);
  }

  lemma {:induction false} DrainUses(run: seq<Config>, acts: seq<Action>, j: nat)
    requires IsDrain(run, acts) && j < |run|
    ensures Drained(run, j)
  {
    if j == 0 {
      DrainStarts(run, acts);
    } else {
      DrainUses(run, acts, j - 1);
      DrainStep(run, acts, j);
    }
  }

  /** Without new calls the threads stop within `Measure` steps, and they stop only when every
      call has returned. */
  lemma PendingCallsDrain(run: seq<Config>, acts: seq<Action>)
    requires IsDrain(run, acts)
    ensures |acts| <= Measure(run[0])
    ensures (forall t :: !Enabled(run[|acts|], Advance(t))) ==>
              forall t | 0 <= t < |run[|acts|].pcs| :: Free(run[|acts|].pcs[t])
  {
    DrainUses(run, acts, |acts|);
    var last := run[|acts|];
    if t :| 0 <= t < |last.pcs| && !Free(last.pcs[t]) {
      var s := SomeThreadCanStep(last, t);
    }
  }
}
