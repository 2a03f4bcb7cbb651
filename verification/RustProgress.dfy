/** The Rust store never deadlocks, and pending calls drain when no new ones arrive. */
module RustProgress {
  import opened Options
  import opened KeyValue
  import opened RustStore
  import opened RustHistory
  import opened RustProtocol

  /** The ascending listing of the segments below `n`. */
  function Listing(objects: Objects, n: nat): (ids: seq<nat>)
    ensures Lists(ids, objects, n)
  {
    if n == 0 then []
    else
      var rest := Listing(objects, n - 1);
      assert forall i | 0 <= i < |rest| :: rest[i] in rest;
      if n - 1 in objects then rest + [n - 1] else rest
  }

  /** Whenever a call is pending some task can take its next step. */
  lemma SomeTaskCanStep(c: Config, pending: nat) returns (a: Action)
    requires Inv(c) && pending < |c.pcs| && !Free(c.pcs[pending])
    ensures Enabled(c, a) && !a.Invoke? && !a.PutFails?
  {
    var t := pending;
    if NeedsBuf(c.pcs[t]) && c.bufGuard.Some? {
      t := c.bufGuard.value;
    } else if c.pcs[t].FlushWait? && c.gate.Some? {
      t := c.gate.value;
      assert HoldsGate(c.pcs[t]);
      if c.pcs[t].FreezeWait? && c.bufGuard.Some? {
        t := c.bufGuard.value;
      }
    }
    a := NextStep(c, t);
  }

  lemma NextStep(c: Config, t: nat) returns (a: Action)
    requires Inv(c) && t < |c.pcs| && !Free(c.pcs[t])
    requires NeedsBuf(c.pcs[t]) ==> c.bufGuard == None
    requires c.pcs[t].FlushWait? ==> c.gate == None
    ensures Enabled(c, a) && !a.Invoke? && !a.PutFails?
  {
    var pc := c.pcs[t];
    assert HoldsGate(pc) ==> PhaseOf(c) == PhaseAt(pc);
    if pc.GetList? {
      a := List(t, Listing(c.world.store.objects, c.world.nextId));
    } else if pc.WriteStart? && c.world.store.imm != map[] {
      a := Name(t, c.world.nextId);
    } else {
      a := Advance(t);
    }
  }

  /** A task that is not in a call can make any call, and a segment put can end either way. */
  lemma OutcomesAreFree(c: Config, t: nat, request: Request, landed: bool)
    requires Inv(c) && t < |c.pcs|
    ensures Free(c.pcs[t]) ==> Enabled(c, Invoke(t, request))
    ensures c.pcs[t].Writing? ==> Enabled(c, Advance(t)) && Enabled(c, PutFails(t, landed))
  {
    assert HoldsGate(c.pcs[t]) ==> PhaseOf(c) == PhaseAt(c.pcs[t]);
  }

  /** Flushes that may still store a segment. */
  function MayLand(pcs: seq<PC>): nat {
    if pcs == [] then 0
    else MayLand(pcs[..|pcs| - 1]) + if CanLand(pcs[|pcs| - 1]) then 1 else 0
  }

  predicate CanLand(pc: PC) {
    pc.FlushWait? || pc.FreezeWait? || pc.FreezeHeld? || pc.WriteStart? || pc.Writing?
  }

  /** No get will have to read more segments than this. */
  function Bound(c: Config): nat {
    |c.world.store.objects| + MayLand(c.pcs)
  }

  /** An upper bound on the steps that a task still has to take. */
  function Weight(pc: PC, bound: nat): nat {
    match pc
    case Ready => 0
    case Returned(_) => 0
    case PutWait(_, _) => 1
    case GetBuf(_) => bound + 4
    case GetFrozen(_) => bound + 3
    case GetList(_, _) => bound + 2
    case GetSegments(_, _, ids) => |ids| + 1
    case FlushWait => 6
    case FreezeWait => 5
    case FreezeHeld => 4
    case WriteStart => 3
    case Writing => 2
    case ClearStart => 1
  }

  function Total(pcs: seq<PC>, bound: nat): nat {
    if pcs == [] then 0 else Total(pcs[..|pcs| - 1], bound) + Weight(pcs[|pcs| - 1], bound)
  }

  function Measure(c: Config): nat {
    Total(c.pcs, Bound(c))
  }

  lemma {:induction false} MayLandAfter(pcs: seq<PC>, t: nat, pc: PC)
    requires t < |pcs|
    ensures MayLand(pcs[t := pc])
            == MayLand(pcs) - (if CanLand(pcs[t]) then 1 else 0) + (if CanLand(pc) then 1 else 0)
  {
    var n := |pcs| - 1;
    if t < n {
      MayLandAfter(pcs[..n], t, pc);
      assert pcs[t := pc][..n] == pcs[..n][t := pc];
    } else {
      assert pcs[t := pc][..n] == pcs[..n];
    }
  }

  lemma {:induction false} TotalGrowsWithBound(pcs: seq<PC>, low: nat, high: nat)
    requires low <= high
    ensures Total(pcs, low) <= Total(pcs, high)
  {
    if pcs == [] {
    } else {
      TotalGrowsWithBound(pcs[..|pcs| - 1], low, high);
    }
  }

  lemma {:induction false} TotalAfter(pcs: seq<PC>, t: nat, pc: PC, bound: nat)
    requires t < |pcs|
    ensures Total(pcs[t := pc], bound) == Total(pcs, bound) - Weight(pcs[t], bound) + Weight(pc, bound)
  {
    var n := |pcs| - 1;
    if t < n {
      TotalAfter(pcs[..n], t, pc, bound);
      assert pcs[t := pc][..n] == pcs[..n][t := pc];
    } else {
      assert pcs[t := pc][..n] == pcs[..n];
    }
  }

  /** A listing is no longer than the number of segments. */
  lemma {:induction false} ListingIsShort(ids: seq<nat>, keys: set<nat>)
    requires forall i, j | 0 <= i < j < |ids| :: ids[i] < ids[j]
    requires forall i | 0 <= i < |ids| :: ids[i] in keys
    ensures |ids| <= |keys|
  {
    if ids == [] {
    } else {
      ListingIsShort(ids[..|ids| - 1], keys - {ids[|ids| - 1]});
    }
  }

  lemma LandAddsOne(objects: Objects, id: nat, content: Buffer)
    ensures |objects[id := content]| <= |objects| + 1
  {
    assert objects[id := content].Keys == objects.Keys + {id};
    assert |objects.Keys + {id}| <= |objects.Keys| + 1;
  }

  ghost predicate Lowers(c: Config, a: Action, bound: nat)
    requires Enabled(c, a)
  {
    var c' := Do(c, a);
    && a.t < |c'.pcs|
    && Weight(c'.pcs[a.t], bound) < Weight(c.pcs[a.t], bound)
    && |c'.world.store.objects| + (if CanLand(c'.pcs[a.t]) then 1 else 0)
       <= |c.world.store.objects| + (if CanLand(c.pcs[a.t]) then 1 else 0)
  }

  lemma GateStepLowers(c: Config, a: Action, bound: nat)
    requires Enabled(c, a) && !a.Invoke? && (c.pcs[a.t].FlushWait? || HoldsGate(c.pcs[a.t]))
    ensures Lowers(c, a, bound)
  {
    if c.pcs[a.t].Writing? {
      LandAddsOne(c.world.store.objects, c.world.flight.value.id, c.world.flight.value.content);
    }
  }

  /** What one step does to the number of segments and to its task's weight. */
  lemma StepLowersWeight(c: Config, a: Action, bound: nat)
    requires Enabled(c, a) && !a.Invoke? && |c.world.store.objects| <= bound
    ensures Lowers(c, a, bound)
  {
    if c.pcs[a.t].FlushWait? || HoldsGate(c.pcs[a.t]) {
      GateStepLowers(c, a, bound);
    } else if a.List? {
      assert forall i | 0 <= i < |a.ids| :: a.ids[i] in a.ids;
      ListingIsShort(a.ids, c.world.store.objects.Keys);
    }
  }

  /** Every step other than a new call lowers the measure, also a put of a segment that a waiting get
      will have to read. */
  lemma StepLowersMeasure(c: Config, a: Action)
    requires Inv(c) && Enabled(c, a) && !a.Invoke?
    ensures Measure(Do(c, a)) < Measure(c)
  {
    var c' := Do(c, a);
    StepMovesOneThread(c, a);
    StepLowersWeight(c, a, Bound(c));
    MayLandAfter(c.pcs, a.t, c'.pcs[a.t]);
    TotalAfter(c.pcs, a.t, c'.pcs[a.t], Bound(c));
    TotalGrowsWithBound(c'.pcs, Bound(c'), Bound(c));
  }

  /** Some steps of the tasks after which no new call has been made. */
  ghost predicate IsDrain(run: seq<Config>, acts: seq<Action>) {
    && |run| == |acts| + 1
    && Inv(run[0])
    && forall j | 0 <= j < |acts| :: StepAt(run, acts, j) && !acts[j].Invoke?
  }

  /** By state `j` the measure has gone down at least `j` times. */
  ghost predicate Drained(run: seq<Config>, j: nat)
    requires j < |run|
  {
    Inv(run[j]) && j + Measure(run[j]) <= Measure(run[0])
  }

  lemma DrainStarts(run: seq<Config>, acts: seq<Action>)
    requires IsDrain(run, acts)
    ensures Drained(run, 0)
  {
  }

  lemma DrainStep(run: seq<Config>, acts: seq<Action>, j: nat)
    requires IsDrain(run, acts) && 0 < j < |run| && Drained(run, j - 1)
    ensures Drained(run, j)
  {
    assert StepAt(run, acts, j - 1);
    StepKeepsInv(run[j - 1], acts[j - 1], run[j]);
    StepLowersMeasure(run[j - 1], acts[j - 1]);
  }

  lemma {:induction false} DrainUses(run: seq<Config>, acts: seq<Action>, j: nat)
    requires IsDrain(run, acts) && j < |run|
    ensures Drained(run, j)
  {
    if j == 0 {
      DrainStarts(run, acts);
    } else {
      DrainUses(run, acts, j - 1);
      DrainStep(run, acts, j);
    }
  }

  /** Without new calls the tasks stop within `Measure` steps, and they stop only when every call has
      returned. */
  lemma PendingCallsDrain(run: seq<Config>, acts: seq<Action>)
    requires IsDrain(run, acts)
    ensures |acts| <= Measure(run[0])
    ensures (forall a: Action :: Enabled(run[|acts|], a) ==> a.Invoke?) ==>
              forall t | 0 <= t < |run[|acts|].pcs| :: Free(run[|acts|].pcs[t])
  {
    DrainUses(run, acts, |acts|);
    var last := run[|acts|];
    if t :| 0 <= t < |last.pcs| && !Free(last.pcs[t]) {
      var a := SomeTaskCanStep(last, t);
    }
  }
}
