/** The Go store under any number of clients: program counters, the owners of `flushMutex` and
    `mu`, and the lock-level steps of `Put`, `Delete`, `Get` and `Flush`. */
module GoProtocol {
  import opened Options
  import opened KeyValue
  import opened BlobNames
  import opened GoStore
  import opened GoHistory

  /** A Delete is a put of `None`. */
  datatype Request = PutReq(key: Key, entry: Entry) | GetReq(key: Key, durability: Durability) | FlushReq

  datatype Result = PutOk | Got(entry: Entry) | FlushOk | FlushErr

  datatype PC =
    | Ready
    | Returned(result: Result)
    | PutWait(key: Key, entry: Entry)              // about to lock mu
    | PutHeld(key: Key, entry: Entry)              // holds mu
    | GetWait(key: Key, durability: Durability)    // about to lock mu
    | GetHeld(key: Key, durability: Durability)    // holds mu, about to look at the buffers
    | GetScan(key: Key, durability: Durability, i: nat) // holds mu, about to read segment i
    | FlushWait                                    // about to lock flushMutex
    | FlushGate                                    // holds flushMutex, about to lock mu
    | FlushHeld                                    // holds both, about to test and snapshot
    | FlushWrite(id: nat, data: Blob)              // holds flushMutex, writing the segment
    | FlushRelock                                  // holds flushMutex, about to lock mu
    | FlushClear                                   // holds both, about to drop the frozen buffer

  predicate Free(pc: PC) {
    pc.Ready? || pc.Returned?
  }

  predicate HoldsMu(pc: PC) {
    pc.PutHeld? || pc.GetHeld? || pc.GetScan? || pc.FlushHeld? || pc.FlushClear?
  }

  predicate HoldsFlushMutex(pc: PC) {
    pc.FlushGate? || pc.FlushHeld? || Storing(pc)
  }

  /** Between the freeze and the end of a flush. */
  predicate Storing(pc: PC) {
    pc.FlushWrite? || pc.FlushRelock? || pc.FlushClear?
  }

  predicate WaitsForMu(pc: PC) {
    pc.PutWait? || pc.GetWait? || pc.FlushGate? || pc.FlushRelock?
  }

  /** The shared memory with its record, the threads, and the two locks. */
  datatype Config = Config(world: World, pcs: seq<PC>, mu: Option<nat>, flushMutex: Option<nat>)

  /** The program counter of thread `t`; a thread that does not exist is at rest. */
  function At(c: Config, t: nat): PC {
    if t < |c.pcs| then c.pcs[t] else Ready
  }

  function Initial(n: nat): Config {
    Config(EMPTY_WORLD, seq(n, i => Ready), None, None)
  }

  /** `Advance` is the next step of a thread's code. A segment write may instead return an
      error; the object may or may not have been stored when it does. */
  datatype Action = Invoke(t: nat, request: Request) | Advance(t: nat) | WriteFails(t: nat, landed: bool)

  predicate Enabled(c: Config, a: Action) {
    && a.t < |c.pcs|
    && var pc := c.pcs[a.t];
       match a
       case Invoke(_, _) => Free(pc)
       case WriteFails(_, _) => pc.FlushWrite?
       case Advance(_) =>
         && !Free(pc)
         && (WaitsForMu(pc) ==> c.mu == None)
         && (pc.FlushWait? ==> c.flushMutex == None)
  }

  function Goto(c: Config, t: nat, pc: PC): Config
    requires t < |c.pcs|
  {
    c.(pcs := c.pcs[t := pc])
  }

  function Lock(c: Config, t: nat, pc: PC): Config
    requires t < |c.pcs|
  {
    Goto(c, t, pc).(mu := Some(t))
  }

  function Unlock(c: Config, t: nat, pc: PC): Config
    requires t < |c.pcs|
  {
    Goto(c, t, pc).(mu := None)
  }

  function Start(request: Request): PC {
    match request
    case PutReq(k, e) => PutWait(k, e)
    case GetReq(k, d) => GetWait(k, d)
    case FlushReq => FlushWait
  }

  ghost function Do(c: Config, a: Action): Config
    requires Enabled(c, a) && Readable(c.world.store)
  {
    match a
    case Invoke(t, request) => Goto(c, t, Start(request))
    case WriteFails(t, landed) =>
      var FlushWrite(id, data) := c.pcs[t];
      Goto(c, t, Returned(FlushErr)).(
        flushMutex := None, world := Fail(if landed then Land(c.world, id, data) else c.world, id))
    case Advance(t) =>
      var w := c.world;
      match c.pcs[t]
      case PutWait(k, e) => Lock(c, t, PutHeld(k, e))
      case PutHeld(k, e) => Unlock(c, t, Returned(PutOk)).(world := Accept(w, k, e))
      case GetWait(k, d) => Lock(c, t, GetHeld(k, d))
      case GetHeld(k, d) => LookAtBuffers(c, t, k, d)
      case GetScan(k, d, i) => LookAtSegment(c, t, k, d, i)
      case FlushWait => Goto(c, t, FlushGate).(flushMutex := Some(t))
      case FlushGate => Lock(c, t, FlushHeld)
      case FlushHeld =>
        if w.store.buffer == map[] then Unlock(c, t, Returned(FlushOk)).(flushMutex := None)
        else Unlock(c, t, FlushWrite(w.store.flushID + 1, TagAll(w.store.buffer))).(world := FreezeWorld(w))
      case FlushWrite(id, data) => Goto(c, t, FlushRelock).(world := Land(w, id, data))
      case FlushRelock => Lock(c, t, FlushClear)
      case FlushClear => Unlock(c, t, Returned(FlushOk)).(flushMutex := None, world := ClearWorld(w))
  }

  ghost function LookAtBuffers(c: Config, t: nat, k: Key, d: Durability): Config
    requires t < |c.pcs| && Readable(c.world.store)
  {
    var s := c.world.store;
    if d.Memory? && k in s.buffer then
      Unlock(c, t, Returned(Got(s.buffer[k])))
    else if d.Memory? && s.frozen.Some? && k in s.frozen.value then
      Unlock(c, t, Returned(Got(Untag(s.frozen.value[k]))))
    else Goto(c, t, GetScan(k, d, s.flushID))
  }

  ghost function LookAtSegment(c: Config, t: nat, k: Key, d: Durability, i: nat): Config
    requires t < |c.pcs| && Readable(c.world.store)
  {
    var bucket := c.world.store.bucket;
    if i == 0 then Unlock(c, t, Returned(Got(None)))
    else if Written(bucket, i) && k in bucket[BlobKey(i)] then
      Unlock(c, t, Returned(Got(Untag(bucket[BlobKey(i)][k]))))
    else Goto(c, t, GetScan(k, d, i - 1))
  }

  /** A run of `n` clients from an empty store; `acts[j]` leads from `run[j]` to `run[j + 1]`. */
  ghost predicate IsRun(run: seq<Config>, acts: seq<Action>) {
    && |run| == |acts| + 1
    && run[0] == Initial(|run[0].pcs|)
    && forall j | 0 <= j < |acts| :: StepAt(run, acts, j)
  }

  ghost predicate StepAt(run: seq<Config>, acts: seq<Action>, j: nat)
    requires |run| == |acts| + 1 && j < |acts|
  {
    IsStep(run[j], acts[j], run[j + 1])
  }

  ghost predicate IsStep(c: Config, a: Action, c': Config) {
    Readable(c.world.store) && Enabled(c, a) && c' == Do(c, a)
  }

  // ----- What every step keeps -----

  ghost predicate LocksOk(c: Config) {
    && (c.mu.Some? ==> c.mu.value < |c.pcs|)
    && (c.flushMutex.Some? ==> c.flushMutex.value < |c.pcs|)
    && (forall t | 0 <= t < |c.pcs| :: HoldsMu(c.pcs[t]) <==> c.mu == Some(t))
    && (forall t | 0 <= t < |c.pcs| :: HoldsFlushMutex(c.pcs[t]) <==> c.flushMutex == Some(t))
  }

  ghost predicate ThreadOk(w: World, pc: PC) {
    && (pc.FlushWrite? ==>
          && pc.id == w.store.flushID > 0
          && w.store.frozen == Some(pc.data)
          && !Written(w.store.bucket, pc.id)
          && pc.id !in w.failures)
    && (pc.FlushRelock? || pc.FlushClear? ==>
          w.store.flushID > 0 && w.store.frozen.Some? && Written(w.store.bucket, w.store.flushID))
    && (pc.GetScan? ==>
          && pc.i <= w.store.flushID
          && (pc.durability.Memory? ==>
                && pc.key !in w.store.buffer
                && (w.store.frozen.Some? ==> pc.key !in w.store.frozen.value)))
  }

  ghost predicate ThreadsOk(c: Config) {
    forall t | 0 <= t < |c.pcs| :: ThreadOk(c.world, c.pcs[t])
  }

  ghost predicate FlushInProgress(c: Config) {
    c.flushMutex.Some? && c.flushMutex.value < |c.pcs| && Storing(c.pcs[c.flushMutex.value])
  }

  /** With no flush between its freeze and its end, an unwritten segment or a leftover frozen
      buffer is the trace of a failed write. */
  ghost predicate Settled(w: World) {
    && (w.store.flushID > 0 ==> Written(w.store.bucket, w.store.flushID) || w.store.flushID in w.failures)
    && (w.store.frozen.Some? ==> w.store.flushID in w.failures)
  }

  ghost predicate Inv(c: Config) {
    && WorldOk(c.world)
    && LocksOk(c)
    && ThreadsOk(c)
    && (!FlushInProgress(c) ==> Settled(c.world))
  }

  lemma InvIsReadable(c: Config)
    requires Inv(c)
    ensures Readable(c.world.store)
  {
  }

  function Owner(holds: bool, held: bool, t: nat, owner: Option<nat>): Option<nat> {
    if holds then Some(t) else if held then None else owner
  }

  /** A step moves one thread, and the lock owners follow its program counter. */
  ghost predicate MovesOneThread(c: Config, t: nat, c': Config) {
    && t < |c.pcs| == |c'.pcs|
    && c'.pcs == c.pcs[t := c'.pcs[t]]
    && (HoldsMu(c'.pcs[t]) && !HoldsMu(c.pcs[t]) ==> c.mu == None)
    && (HoldsFlushMutex(c'.pcs[t]) && !HoldsFlushMutex(c.pcs[t]) ==> c.flushMutex == None)
    && c'.mu == Owner(HoldsMu(c'.pcs[t]), HoldsMu(c.pcs[t]), t, c.mu)
    && c'.flushMutex == Owner(HoldsFlushMutex(c'.pcs[t]), HoldsFlushMutex(c.pcs[t]), t, c.flushMutex)
  }

  lemma FlushStepMovesOneThread(c: Config, a: Action)
    requires Enabled(c, a) && Readable(c.world.store)
    requires c.pcs[a.t].FlushWait? || HoldsFlushMutex(c.pcs[a.t])
    requires HoldsMu(c.pcs[a.t]) <==> c.mu == Some(a.t)
    requires HoldsFlushMutex(c.pcs[a.t]) <==> c.flushMutex == Some(a.t)
    ensures MovesOneThread(c, a.t, Do(c, a))
  {
  }

  lemma StepMovesOneThread(c: Config, a: Action)
    requires LocksOk(c) && Enabled(c, a) && Readable(c.world.store)
    ensures MovesOneThread(c, a.t, Do(c, a))
  {
    var pc := c.pcs[a.t];
    assert HoldsMu(pc) <==> c.mu == Some(a.t);
    assert HoldsFlushMutex(pc) <==> c.flushMutex == Some(a.t);
    if pc.FlushWait? || HoldsFlushMutex(pc) {
      FlushStepMovesOneThread(c, a);
    }
  }

  lemma LocksKept(c: Config, t: nat, c': Config)
    requires LocksOk(c) && MovesOneThread(c, t, c')
    ensures LocksOk(c')
  {
  }

  lemma WorldKept(c: Config, a: Action)
    requires Inv(c) && Enabled(c, a) && Readable(c.world.store)
    ensures WorldOk(Do(c, a).world)
  {
    var w, pc := c.world, c.pcs[a.t];
    assert ThreadOk(w, pc);
    if pc.PutHeld? {
      AcceptOk(w, pc.key, pc.entry);
    } else if pc.FlushHeld? && w.store.buffer != map[] {
      FreezeOk(w);
    } else if pc.FlushWrite? {
      LandOk(w);
      if a.WriteFails? {
        FailOk(if a.landed then Land(w, pc.id, pc.data) else w, pc.id);
      }
    } else if pc.FlushClear? {
      ClearOk(w);
    }
  }

  lemma OwnFlushKept(c: Config, a: Action)
    requires Enabled(c, a) && Readable(c.world.store) && ThreadOk(c.world, c.pcs[a.t])
    requires HoldsFlushMutex(c.pcs[a.t])
    requires !Written(c.world.store.bucket, c.world.store.flushID + 1)
    requires c.world.store.flushID + 1 !in c.world.failures
    ensures var c' := Do(c, a); a.t < |c'.pcs| && ThreadOk(c'.world, c'.pcs[a.t])
  {
  }

  lemma OwnThreadKept(c: Config, a: Action)
    requires Enabled(c, a) && Readable(c.world.store) && ThreadOk(c.world, c.pcs[a.t])
    requires !Written(c.world.store.bucket, c.world.store.flushID + 1)
    requires c.world.store.flushID + 1 !in c.world.failures
    ensures var c' := Do(c, a); a.t < |c'.pcs| && ThreadOk(c'.world, c'.pcs[a.t])
  {
    if HoldsFlushMutex(c.pcs[a.t]) {
      OwnFlushKept(c, a);
    }
  }

  /** Only the holders of the locks change what other threads rely on. */
  lemma OtherThreadsKept(c: Config, a: Action, q: nat)
    requires Inv(c) && Enabled(c, a) && Readable(c.world.store)
    requires q < |c.pcs| && q != a.t
    ensures ThreadOk(Do(c, a).world, c.pcs[q])
  {
    var w, pc, other := c.world, c.pcs[a.t], c.pcs[q];
    assert ThreadOk(w, pc) && ThreadOk(w, other);
    assert HoldsMu(pc) ==> !HoldsMu(other);
    assert HoldsFlushMutex(pc) ==> !HoldsFlushMutex(other);
    if pc.FlushWrite? {
      LandOk(w);
    }
  }

  lemma SettledKept(c: Config, a: Action)
    requires Enabled(c, a) && Readable(c.world.store) && ThreadOk(c.world, c.pcs[a.t])
    requires HoldsFlushMutex(c.pcs[a.t]) <==> c.flushMutex == Some(a.t)
    requires !FlushInProgress(c) ==> Settled(c.world)
    ensures var c' := Do(c, a); !FlushInProgress(c') ==> Settled(c'.world)
  {
  }

  lemma StepKeepsInv(c: Config, a: Action)
    requires Inv(c) && Enabled(c, a)
    ensures Readable(c.world.store) && Inv(Do(c, a))
    ensures MovesOneThread(c, a.t, Do(c, a))
  {
    InvIsReadable(c);
    WorldKept(c, a);
    StepMovesOneThread(c, a);
    SettledKept(c, a);
    OwnThreadKept(c, a);
    var c' := Do(c, a);
    LocksKept(c, a.t, c');
    forall q | 0 <= q < |c.pcs| ensures ThreadOk(c'.world, c'.pcs[q]) {
      if q != a.t {
        OtherThreadsKept(c, a, q);
      }
    }
  }

  /** For runs: the invariant stated on a step. */
  lemma IsStepKeepsInv(c: Config, a: Action, c': Config)
    requires Inv(c) && IsStep(c, a, c')
    ensures Inv(c') && MovesOneThread(c, a.t, c')
  {
    StepKeepsInv(c, a);
  }

  /** Every state of every run, of any number of clients, satisfies the invariant. */
  lemma {:induction false} RunKeepsInv(run: seq<Config>, acts: seq<Action>, j: nat)
    requires IsRun(run, acts) && j < |run|
    ensures Inv(run[j]) && |run[j].pcs| == |run[0].pcs|
  {
    if j == 0 {
    } else {
      RunKeepsInv(run, acts, j - 1);
      assert StepAt(run, acts, j - 1);
      IsStepKeepsInv(run[j - 1], acts[j - 1], run[j]);
    }
  }
}
