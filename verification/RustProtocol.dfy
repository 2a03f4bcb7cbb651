/** The Rust store under any number of tasks: program counters, the owners of `flush_gate` and of
    the write guard on `buf`, and the steps between await points. The critical sections on
    `immutable_buf` contain no await, so each of them is part of one step. */
module RustProtocol {
  import opened Options
  import opened KeyValue
  import opened RustStore
  import opened RustHistory

  datatype Request = PutReq(key: Key, entry: Entry) | GetReq(key: Key, durability: Durability) | FlushReq

  datatype Result = PutOk | Got(entry: Entry) | FlushOk | FlushErr

  datatype PC =
    | Ready
    | Returned(result: Result)
    | PutWait(key: Key, entry: Entry)          // about to lock buf, insert and release
    | GetBuf(key: Key)                         // dirty read, about to read buf
    | GetFrozen(key: Key)                      // dirty read, buf released, about to read immutable_buf
    | GetList(key: Key, durability: Durability)// about to list the segments
    | GetSegments(key: Key, durability: Durability, ids: seq<nat>) // the listing left to read, newest last
    | FlushWait                                // about to take the gate
    | FreezeWait                               // holds the gate, about to lock buf
    | FreezeHeld                               // holds the gate and buf, about to lock immutable_buf
    | WriteStart                               // holds the gate, about to take or clone immutable_buf
    | Writing                                  // holds the gate, putting the segment
    | ClearStart                               // holds the gate, about to clear immutable_buf

  predicate Free(pc: PC) {
    pc.Ready? || pc.Returned?
  }

  predicate HoldsGate(pc: PC) {
    pc.FreezeWait? || pc.FreezeHeld? || pc.WriteStart? || pc.Writing? || pc.ClearStart?
  }

  predicate HoldsBuf(pc: PC) {
    pc.FreezeHeld?
  }

  predicate NeedsBuf(pc: PC) {
    pc.PutWait? || pc.GetBuf? || pc.FreezeWait?
  }

  datatype Config = Config(form: Form, world: World, pcs: seq<PC>, gate: Option<nat>, bufGuard: Option<nat>)

  /** The program counter of task `t`; a task that does not exist is at rest. */
  function At(c: Config, t: nat): PC {
    if t < |c.pcs| then c.pcs[t] else Ready
  }

  function Initial(form: Form, n: nat): Config {
    Config(form, EMPTY_WORLD, seq(n, i => Ready), None, None)
  }

  /** `Name` starts the write of a non-empty frozen buffer under a fresh ULID, `List` gets an
      ascending listing, `PutFails` is a segment put that reports an error. */
  datatype Action =
    | Invoke(t: nat, request: Request)
    | Advance(t: nat)
    | Name(t: nat, id: nat)
    | List(t: nat, ids: seq<nat>)
    | PutFails(t: nat, landed: bool)

  ghost predicate Enabled(c: Config, a: Action) {
    && a.t < |c.pcs|
    && var pc := c.pcs[a.t];
       match a
       case Invoke(_, _) => Free(pc)
       case Name(_, id) => pc.WriteStart? && c.world.store.imm != map[] && id >= c.world.nextId
       case List(_, ids) => pc.GetList? && ListsAll(ids, c.world.store.objects)
       case PutFails(_, _) => pc.Writing? && c.world.flight.Some?
       case Advance(_) =>
         && !Free(pc) && !pc.GetList?
         && (NeedsBuf(pc) ==> c.bufGuard == None)
         && (pc.FlushWait? ==> c.gate == None)
         && (pc.WriteStart? ==> c.world.store.imm == map[])
         && (pc.Writing? ==> c.world.flight.Some?)
  }

  function Goto(c: Config, t: nat, pc: PC): Config
    requires t < |c.pcs|
  {
    c.(pcs := c.pcs[t := pc])
  }

  function Start(request: Request): PC {
    match request
    case PutReq(k, e) => PutWait(k, e)
    case GetReq(k, d) => if d.Memory? then GetBuf(k) else GetList(k, d)
    case FlushReq => FlushWait
  }

  ghost function Do(c: Config, a: Action): Config
    requires Enabled(c, a)
  {
    var w := c.world;
    match a
    case Invoke(t, request) => Goto(c, t, Start(request))
    case Name(t, id) => Goto(c, t, Writing).(world := HandOver(w, c.form, id))
    case List(t, ids) => Goto(c, t, GetSegments(c.pcs[t].key, c.pcs[t].durability, ids))
    case PutFails(t, landed) => Goto(c, t, Returned(FlushErr)).(gate := None, world := FailWorld(w, landed))
    case Advance(t) =>
      match c.pcs[t]
      case PutWait(k, e) => Goto(c, t, Returned(PutOk)).(world := Accept(w, k, e))
      case GetBuf(k) =>
        Goto(c, t, if k in w.store.buf then Returned(Got(w.store.buf[k])) else GetFrozen(k))
      case GetFrozen(k) =>
        Goto(c, t, if k in w.store.imm then Returned(Got(w.store.imm[k])) else GetList(k, Memory))
      case GetSegments(k, d, ids) => Goto(c, t, ReadOne(w.store.objects, k, d, ids))
      case FlushWait => Goto(c, t, FreezeWait).(gate := Some(t))
      case FreezeWait => Goto(c, t, FreezeHeld).(bufGuard := Some(t))
      case FreezeHeld => Goto(c, t, WriteStart).(bufGuard := None, world := FreezeWorld(w))
      case WriteStart => Goto(c, t, ClearStart)
      case Writing => Goto(c, t, ClearStart).(world := LandWorld(w))
      case ClearStart => Goto(c, t, Returned(FlushOk)).(gate := None, world := ClearWorld(w))
  }

  /** One iteration of the loop over the listing. */
  function ReadOne(objects: Objects, k: Key, d: Durability, ids: seq<nat>): PC {
    if ids == [] then Returned(Got(None))
    else
      var id := ids[|ids| - 1];
      if id in objects && k in objects[id] then Returned(Got(objects[id][k]))
      else GetSegments(k, d, ids[..|ids| - 1])
  }

  ghost predicate IsStep(c: Config, a: Action, c': Config) {
    Enabled(c, a) && c' == Do(c, a)
  }

  ghost predicate StepAt(run: seq<Config>, acts: seq<Action>, j: nat)
    requires |run| == |acts| + 1 && j < |acts|
  {
    IsStep(run[j], acts[j], run[j + 1])
  }

  ghost predicate IsRun(run: seq<Config>, acts: seq<Action>) {
    && |run| == |acts| + 1
    && run[0] == Initial(run[0].form, |run[0].pcs|)
    && forall j | 0 <= j < |acts| :: StepAt(run, acts, j)
  }

  // ----- What every step keeps -----

  ghost predicate LocksOk(c: Config) {
    && (c.gate.Some? ==> c.gate.value < |c.pcs|)
    && (c.bufGuard.Some? ==> c.bufGuard.value < |c.pcs|)
    && (forall t | 0 <= t < |c.pcs| :: HoldsGate(c.pcs[t]) <==> c.gate == Some(t))
    && (forall t | 0 <= t < |c.pcs| :: HoldsBuf(c.pcs[t]) <==> c.bufGuard == Some(t))
  }

  function PhaseAt(pc: PC): Phase {
    match pc
    case WriteStart => ToWrite
    case Writing => Sending
    case ClearStart => ToClear
    case _ => Resting
  }

  function PhaseOf(c: Config): Phase {
    if c.gate.Some? && c.gate.value < |c.pcs| then PhaseAt(c.pcs[c.gate.value]) else Resting
  }

  ghost predicate ListingsOk(c: Config) {
    forall t | 0 <= t < |c.pcs| :: ListingOk(c.world, c.pcs[t])
  }

  /** The segments that a read has yet to visit still exist. */
  ghost predicate ListingOk(w: World, pc: PC) {
    pc.GetSegments? ==> forall id | id in pc.ids :: id in w.store.objects
  }

  ghost predicate Inv(c: Config) {
    && LocksOk(c)
    && WorldOk(c.world, c.form, PhaseOf(c))
    && ListingsOk(c)
  }

  function Owner(holds: bool, held: bool, t: nat, owner: Option<nat>): Option<nat> {
    if holds then Some(t) else if held then None else owner
  }

  ghost predicate MovesOneThread(c: Config, t: nat, c': Config) {
    && c'.form == c.form
    && t < |c.pcs| == |c'.pcs|
    && c'.pcs == c.pcs[t := c'.pcs[t]]
    && (HoldsGate(c'.pcs[t]) && !HoldsGate(c.pcs[t]) ==> c.gate == None)
    && (HoldsBuf(c'.pcs[t]) && !HoldsBuf(c.pcs[t]) ==> c.bufGuard == None)
    && c'.gate == Owner(HoldsGate(c'.pcs[t]), HoldsGate(c.pcs[t]), t, c.gate)
    && c'.bufGuard == Owner(HoldsBuf(c'.pcs[t]), HoldsBuf(c.pcs[t]), t, c.bufGuard)
  }

  lemma StepMovesOneThread(c: Config, a: Action)
    requires LocksOk(c) && Enabled(c, a)
    ensures MovesOneThread(c, a.t, Do(c, a))
  {
    var pc := c.pcs[a.t];
    assert HoldsGate(pc) <==> c.gate == Some(a.t);
    assert HoldsBuf(pc) <==> c.bufGuard == Some(a.t);
  }

  lemma LocksKept(c: Config, t: nat, c': Config)
    requires LocksOk(c) && MovesOneThread(c, t, c')
    ensures LocksOk(c')
    ensures HoldsGate(c.pcs[t]) ==> PhaseOf(c) == PhaseAt(c.pcs[t])
    ensures HoldsGate(c.pcs[t]) || HoldsGate(c'.pcs[t]) ==> PhaseOf(c') == PhaseAt(c'.pcs[t])
    ensures !HoldsGate(c.pcs[t]) && !HoldsGate(c'.pcs[t]) ==> PhaseOf(c') == PhaseOf(c)
    ensures !HoldsGate(c.pcs[t]) && HoldsGate(c'.pcs[t]) ==> PhaseOf(c) == Resting
  {
    assert HoldsGate(c.pcs[t]) <==> c.gate == Some(t);
  }

  /** The seven ways in which a step changes what the tasks share. */
  datatype Effect =
    | Nothing
    | Put(key: Key, entry: Entry)
    | Froze
    | Handed(id: nat)
    | Landed
    | Failed(landed: bool)
    | Cleared

  function EffectOf(c: Config, a: Action): Effect
    requires a.t < |c.pcs|
  {
    var pc := c.pcs[a.t];
    match a
    case Invoke(_, _) => Nothing
    case List(_, _) => Nothing
    case Name(_, id) => Handed(id)
    case PutFails(_, landed) => Failed(landed)
    case Advance(_) =>
      if pc.PutWait? then Put(pc.key, pc.entry)
      else if pc.FreezeHeld? then Froze
      else if pc.Writing? then Landed
      else if pc.ClearStart? then Cleared
      else Nothing
  }

  predicate Applies(w: World, e: Effect) {
    match e
    case Handed(id) => w.store.imm != map[] && id >= w.nextId
    case Landed => w.flight.Some?
    case Failed(_) => w.flight.Some?
    case _ => true
  }

  function Apply(w: World, form: Form, e: Effect): World
    requires Applies(w, e)
  {
    match e
    case Nothing => w
    case Put(k, v) => Accept(w, k, v)
    case Froze => FreezeWorld(w)
    case Handed(id) => HandOver(w, form, id)
    case Landed => LandWorld(w)
    case Failed(landed) => FailWorld(w, landed)
    case Cleared => ClearWorld(w)
  }

  /** The phase of the flush before and after an effect. */
  predicate PhaseStep(e: Effect, imm: Buffer, p: Phase, p': Phase) {
    match e
    case Nothing => p' == p || (p == ToWrite && imm == map[] && p' == ToClear)
    case Put(_, _) => p' == p
    case Froze => p == Resting && p' == ToWrite
    case Handed(_) => p == ToWrite && p' == Sending
    case Landed => p == Sending && p' == ToClear
    case Failed(_) => p == Sending && p' == Resting
    case Cleared => p == ToClear && p' == Resting
  }

  lemma EffectIs(c: Config, a: Action)
    requires LocksOk(c) && Enabled(c, a)
    ensures Applies(c.world, EffectOf(c, a))
    ensures Do(c, a).world == Apply(c.world, c.form, EffectOf(c, a))
    ensures PhaseStep(EffectOf(c, a), c.world.store.imm, PhaseOf(c), PhaseOf(Do(c, a)))
  {
    StepMovesOneThread(c, a);
    LocksKept(c, a.t, Do(c, a));
  }

  lemma EffectKeepsWorld(w: World, form: Form, e: Effect, p: Phase, p': Phase)
    requires WorldOk(w, form, p) && Applies(w, e) && PhaseStep(e, w.store.imm, p, p')
    ensures WorldOk(Apply(w, form, e), form, p')
  {
    match e
    case Nothing =>
    case Put(k, v) => AcceptOk(w, form, p, k, v);
    case Froze => FreezeOk(w, form);
    case Handed(id) => HandOverOk(w, form, id);
    case Landed => LandOk(w, form);
    case Failed(landed) => FailOk(w, form, landed);
    case Cleared => ClearOk(w, form);
  }

  /** Segments are written once and never deleted. */
  lemma ObjectsOnlyGrow(w: World, form: Form, e: Effect, p: Phase)
    requires WorldOk(w, form, p) && Applies(w, e)
    ensures var o := Apply(w, form, e).store.objects;
            forall id | id in w.store.objects :: id in o && o[id] == w.store.objects[id]
  {
  }

  lemma ListingKept(c: Config, a: Action, q: nat)
    requires Enabled(c, a) && q < |c.pcs| && q < |Do(c, a).pcs|
    requires ListingOk(c.world, c.pcs[q])
    requires forall id | id in c.world.store.objects :: id in Do(c, a).world.store.objects
    ensures ListingOk(Do(c, a).world, Do(c, a).pcs[q])
  {
  }

  lemma StepKeepsInv(c: Config, a: Action, c': Config)
    requires Inv(c) && IsStep(c, a, c')
    ensures Inv(c') && MovesOneThread(c, a.t, c')
  {
    StepMovesOneThread(c, a);
    LocksKept(c, a.t, c');
    EffectIs(c, a);
    EffectKeepsWorld(c.world, c.form, EffectOf(c, a), PhaseOf(c), PhaseOf(c'));
    ObjectsOnlyGrow(c.world, c.form, EffectOf(c, a), PhaseOf(c));
    forall q | 0 <= q < |c.pcs| ensures ListingOk(c'.world, c'.pcs[q]) {
      ListingKept(c, a, q);
    }
  }

  lemma {:induction false} RunKeepsInv(run: seq<Config>, acts: seq<Action>, j: nat)
    requires IsRun(run, acts) && j < |run|
    ensures Inv(run[j]) && |run[j].pcs| == |run[0].pcs| && run[j].form == run[0].form
  {
    if j == 0 {
    } else {
      RunKeepsInv(run, acts, j - 1);
      assert StepAt(run, acts, j - 1);
      StepKeepsInv(run[j - 1], acts[j - 1], run[j]);
    }
  }

  /** The shipped hand-off: while the gate is free nothing is frozen, so a freeze happens exactly
      when `buf` is not empty, and the final clear removes nothing. */
  lemma ShippedHandOff(c: Config, a: Action)
    requires Inv(c) && c.form == Take && Enabled(c, a)
    ensures c.gate == None ==> c.world.store.imm == map[] && c.world.flight == None
    ensures a.Advance? && c.pcs[a.t].FreezeHeld? ==>
              Do(c, a).world.store == c.world.store.(buf := map[], imm := c.world.store.buf)
    ensures a.Advance? && c.pcs[a.t].ClearStart? ==> Do(c, a).world == c.world
  {
    EffectIs(c, a);
  }

  /** Nobody reads or writes `buf` while a freeze holds its write guard, and at most one task does. */
  lemma GuardExcludes(c: Config, a: Action, q: nat)
    requires Inv(c) && Enabled(c, a) && q < |c.pcs| && q != a.t && HoldsBuf(c.pcs[q])
    ensures c.world.store.buf == Do(c, a).world.store.buf
    ensures !HoldsBuf(c.pcs[a.t]) && (a.Advance? ==> !c.pcs[a.t].GetBuf? && !c.pcs[a.t].PutWait?)
  {
    assert c.bufGuard == Some(q);
    assert HoldsBuf(c.pcs[a.t]) <==> c.bufGuard == Some(a.t);
  }
}
