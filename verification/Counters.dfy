/** The two atomic counters under any number of threads. */
module Counters {
  import opened Options

  const I32_MAX: int := 0x7fff_ffff
  const I32_MIN: int := -0x8000_0000

  predicate IsI32(x: int) {
    I32_MIN <= x <= I32_MAX
  }

  /** `fetch_add` and `fetch_sub` wrap around. */
  function Wrap(x: int): int {
    (x - I32_MIN) % 0x1_0000_0000 + I32_MIN
  }

  lemma WrapIsIdentity(x: int)
    requires IsI32(x)
    ensures Wrap(x) == x
  {
  }

  // ----- BadMemCounter: check, then act -----

  /** `Adding` and `Subtracting` have passed their check and not yet acted. */
  datatype BadPC = Idle | Adding | Subtracting

  datatype Bad = Bad(limit: int, value: int, pcs: seq<BadPC>)

  datatype BadAction = IncLoad(t: nat) | DecLoad(t: nat) | Act(t: nat)

  function BadInitial(limit: int, n: nat): Bad {
    Bad(limit, 0, seq(n, i => Idle))
  }

  predicate BadEnabled(s: Bad, a: BadAction) {
    a.t < |s.pcs| && (a.Act? <==> s.pcs[a.t] != Idle)
  }

  function BadDo(s: Bad, a: BadAction): Bad
    requires BadEnabled(s, a)
  {
    match a
    case IncLoad(t) => s.(pcs := s.pcs[t := if s.value < s.limit then Adding else Idle])
    case DecLoad(t) => s.(pcs := s.pcs[t := if s.value > 0 then Subtracting else Idle])
    case Act(t) =>
      s.(value := Wrap(if s.pcs[t] == Adding then s.value + 1 else s.value - 1), pcs := s.pcs[t := Idle])
  }

  /** The state that a list of steps leads to, if each of them is enabled in turn. */
  function BadAfter(s: Bad, acts: seq<BadAction>): Option<Bad> {
    if acts == [] then Some(s)
    else
      var m := BadAfter(s, acts[..|acts| - 1]);
      if m.Some? && BadEnabled(m.value, acts[|acts| - 1]) then Some(BadDo(m.value, acts[|acts| - 1])) else None
  }

  lemma BadSnoc(s: Bad, acts: seq<BadAction>, a: BadAction)
    ensures BadAfter(s, acts + [a])
            == if BadAfter(s, acts).Some? && BadEnabled(BadAfter(s, acts).value, a)
               then Some(BadDo(BadAfter(s, acts).value, a)) else None
  {
    assert (acts + [a])[..|acts|] == acts;
  }

  function Count(pcs: seq<BadPC>, pc: BadPC): (n: nat)
    ensures n <= |pcs|
  {
    if pcs == [] then 0 else Count(pcs[..|pcs| - 1], pc) + if pcs[|pcs| - 1] == pc then 1 else 0
  }

  lemma {:induction false} CountAfter(pcs: seq<BadPC>, t: nat, next: BadPC, pc: BadPC)
    requires t < |pcs|
    ensures Count(pcs[t := next], pc)
            == Count(pcs, pc) - (if pcs[t] == pc then 1 else 0) + (if next == pc then 1 else 0)
  {
    var n := |pcs| - 1;
    if t < n {
      CountAfter(pcs[..n], t, next, pc);
      assert pcs[t := next][..n] == pcs[..n][t := next];
    } else {
      assert pcs[t := next][..n] == pcs[..n];
    }
  }

  lemma {:induction false} CountIdle(n: nat, pc: BadPC)
    ensures Count(seq(n, i => Idle), pc) == if pc == Idle then n else 0
  {
    if n == 0 {
    } else {
      assert seq(n, i => Idle)[..n - 1] == seq(n - 1, i => Idle);
      CountIdle(n - 1, pc);
    }
  }

  /** What keeps the drift bounded: the increments still to come are counted in. */
  predicate BadInv(s: Bad) {
    && s.limit >= 1
    && s.value + Count(s.pcs, Adding) <= s.limit + |s.pcs| - 1
    && s.value - Count(s.pcs, Subtracting) >= 1 - |s.pcs|
  }

  predicate Fits(limit: int, n: nat) {
    limit + n - 1 <= I32_MAX
  }

  lemma BadStepKeepsInv(s: Bad, a: BadAction)
    requires BadInv(s) && BadEnabled(s, a) && Fits(s.limit, |s.pcs|)
    ensures BadInv(BadDo(s, a))
    ensures a.Act? ==> BadDo(s, a).value == if s.pcs[a.t] == Adding then s.value + 1 else s.value - 1
  {
    var next := BadDo(s, a).pcs[a.t];
    CountAfter(s.pcs, a.t, next, Adding);
    CountAfter(s.pcs, a.t, next, Subtracting);
    if a.Act? {
      WrapIsIdentity(if s.pcs[a.t] == Adding then s.value + 1 else s.value - 1);
    }
  }

  /** The drift of the check-then-act counter: with `n` threads it stays within `n - 1` of the
      intended range, and no addition wraps. */
  lemma {:induction false} BadDriftBound(limit: int, n: nat, acts: seq<BadAction>)
    requires limit >= 1 && n >= 1 && Fits(limit, n)
    requires BadAfter(BadInitial(limit, n), acts).Some?
    ensures var s := BadAfter(BadInitial(limit, n), acts).value;
            BadInv(s) && s.limit == limit && |s.pcs| == n && 1 - n <= s.value <= limit + n - 1
  {
    if acts == [] {
      CountIdle(n, Adding);
      CountIdle(n, Subtracting);
    } else {
      var front := acts[..|acts| - 1];
      BadDriftBound(limit, n, front);
      BadStepKeepsInv(BadAfter(BadInitial(limit, n), front).value, acts[|acts| - 1]);
    }
  }

  /** With a limit below one the check never passes and the counter stays at zero. */
  lemma {:induction false} BadStaysAtZero(limit: int, n: nat, acts: seq<BadAction>)
    requires limit <= 0 && BadAfter(BadInitial(limit, n), acts).Some?
    ensures BadAfter(BadInitial(limit, n), acts).value == BadInitial(limit, n)
  {
    if acts == [] {
    } else {
      BadStaysAtZero(limit, n, acts[..|acts| - 1]);
    }
  }

  function FirstThen(n: nat, j: nat, a: BadPC, b: BadPC): (pcs: seq<BadPC>)
    ensures |pcs| == n
  {
    seq(n, i => if i < j then a else b)
  }

  /** One thread alone counts up to `v`. */
  lemma {:induction false} Climb(limit: int, n: nat, v: nat) returns (acts: seq<BadAction>)
    requires n >= 1 && v <= limit <= I32_MAX
    ensures BadAfter(BadInitial(limit, n), acts) == Some(Bad(limit, v, FirstThen(n, 0, Idle, Idle)))
  {
    if v == 0 {
      acts := [];
      assert BadInitial(limit, n).pcs == FirstThen(n, 0, Idle, Idle);
    } else {
      var before := Climb(limit, n, v - 1);
      var idle := FirstThen(n, 0, Idle, Idle);
      BadSnoc(BadInitial(limit, n), before, IncLoad(0));
      BadSnoc(BadInitial(limit, n), before + [IncLoad(0)], Act(0));
      WrapIsIdentity(v);
      assert idle[0 := Adding][0 := Idle] == idle;
      acts := before + [IncLoad(0)] + [Act(0)];
    }
  }

  /** The first `j` threads pass their check, all on the same value. */
  lemma {:induction false} AllPass(s: Bad, before: seq<BadAction>, v: int, n: nat, j: nat, up: bool)
    returns (acts: seq<BadAction>)
    requires BadAfter(s, before) == Some(Bad(s.limit, v, FirstThen(n, 0, Idle, Idle))) && j <= n
    requires if up then v < s.limit else v > 0
    ensures BadAfter(s, acts) == Some(Bad(s.limit, v, FirstThen(n, j, if up then Adding else Subtracting, Idle)))
  {
    var pc := if up then Adding else Subtracting;
    if j == 0 {
      acts := before;
      assert FirstThen(n, 0, Idle, Idle) == FirstThen(n, 0, pc, Idle);
    } else {
      var rest := AllPass(s, before, v, n, j - 1, up);
      var a := if up then IncLoad(j - 1) else DecLoad(j - 1);
      BadSnoc(s, rest, a);
      acts := rest + [a];
      assert FirstThen(n, j - 1, pc, Idle)[j - 1 := pc] == FirstThen(n, j, pc, Idle);
    }
  }

  /** Then the first `j` of them act. */
  lemma {:induction false} AllAct(s: Bad, before: seq<BadAction>, v: int, n: nat, j: nat, up: bool)
    returns (acts: seq<BadAction>)
    requires BadAfter(s, before) == Some(Bad(s.limit, v, FirstThen(n, n, if up then Adding else Subtracting, Idle)))
    requires j <= n && (if up then I32_MIN <= v && v + j <= I32_MAX else v <= I32_MAX && v - j >= I32_MIN)
    ensures BadAfter(s, acts)
            == Some(Bad(s.limit, if up then v + j else v - j,
                        FirstThen(n, j, Idle, if up then Adding else Subtracting)))
  {
    var pc := if up then Adding else Subtracting;
    if j == 0 {
      acts := before;
      assert FirstThen(n, n, pc, Idle) == FirstThen(n, 0, Idle, pc);
    } else {
      var rest := AllAct(s, before, v, n, j - 1, up);
      BadSnoc(s, rest, Act(j - 1));
      WrapIsIdentity(if up then v + j else v - j);
      acts := rest + [Act(j - 1)];
      assert FirstThen(n, j - 1, Idle, pc)[j - 1 := Idle] == FirstThen(n, j, Idle, pc);
    }
  }

  /** The bound is exact: for every number of threads some run reaches each end of it. */
  lemma BadDriftIsReached(limit: int, n: nat) returns (top: seq<BadAction>, bottom: seq<BadAction>)
    requires limit >= 1 && n >= 1 && Fits(limit, n)
    ensures var s := BadAfter(BadInitial(limit, n), top); s.Some? && s.value.value == limit + n - 1
    ensures var s := BadAfter(BadInitial(limit, n), bottom); s.Some? && s.value.value == 1 - n
  {
    var s := BadInitial(limit, n);
    top := Climb(limit, n, limit - 1);
    top := AllPass(s, top, limit - 1, n, n, true);
    top := AllAct(s, top, limit - 1, n, n, true);
    bottom := Climb(limit, n, 1);
    bottom := AllPass(s, bottom, 1, n, n, false);
    bottom := AllAct(s, bottom, 1, n, n, false);
  }

  /** And when the bound does not fit in 32 bits, some run wraps to the most negative value. */
  lemma BadWrapsBeyond(limit: int, n: nat) returns (acts: seq<BadAction>)
    requires 1 <= limit <= I32_MAX && n >= 1 && !Fits(limit, n)
    ensures var s := BadAfter(BadInitial(limit, n), acts); s.Some? && s.value.value == I32_MIN
  {
    var s := BadInitial(limit, n);
    var j := I32_MAX - limit + 1;
    acts := Climb(limit, n, limit - 1);
    acts := AllPass(s, acts, limit - 1, n, n, true);
    acts := AllAct(s, acts, limit - 1, n, j, true);
    BadSnoc(s, acts, Act(j));
    acts := acts + [Act(j)];
  }

  // ----- GoodMemCounter: fetch_update -----

  datatype Op = Inc | Dec

  /** `Trying` has loaded `current`, found an update for it and is about to compare-and-swap. */
  datatype GoodPC = Resting | Starting(op: Op) | Trying(op: Op, current: int)

  datatype Good = Good(limit: int, value: int, pcs: seq<GoodPC>)

  /** `Swap` is a weak compare-and-swap: it may fail although the value is the expected one. */
  datatype GoodAction = Call(t: nat, op: Op) | Load(t: nat) | Swap(t: nat, spurious: bool)

  function GoodInitial(limit: int, n: nat): Good {
    Good(limit, 0, seq(n, i => Resting))
  }

  predicate GoodEnabled(s: Good, a: GoodAction) {
    && a.t < |s.pcs|
    && match a
       case Call(t, _) => s.pcs[t].Resting?
       case Load(t) => s.pcs[t].Starting?
       case Swap(t, _) => s.pcs[t].Trying?
  }

  /** The closure given to `fetch_update`. */
  function Update(limit: int, op: Op, current: int): Option<int> {
    match op
    case Inc => if current < limit then Some(current + 1) else None
    case Dec => if current > 0 then Some(current - 1) else None
  }

  /** After reading `current`: try to swap, or stop when there is nothing to do. */
  function Next(limit: int, op: Op, current: int): GoodPC {
    if Update(limit, op, current).Some? then Trying(op, current) else Resting
  }

  function GoodDo(s: Good, a: GoodAction): Good
    requires GoodEnabled(s, a)
  {
    match a
    case Call(t, op) => s.(pcs := s.pcs[t := Starting(op)])
    case Load(t) => s.(pcs := s.pcs[t := Next(s.limit, s.pcs[t].op, s.value)])
    case Swap(t, spurious) =>
      var Trying(op, current) := s.pcs[t];
      var update := Update(s.limit, op, current);
      if s.value == current && !spurious && update.Some?
      then s.(value := update.value, pcs := s.pcs[t := Resting])
      else s.(pcs := s.pcs[t := Next(s.limit, op, s.value)])
  }

  /** The specification's counter. */
  function SpecDo(max: int, value: int, op: Op): int {
    match op
    case Inc => if value + 1 < max then value + 1 else max
    case Dec => if value - 1 > 0 then value - 1 else 0
  }

  /** The operation that a step carries out: the one whose call it ends. */
  function Effect(s: Good, a: GoodAction): Option<Op>
    requires GoodEnabled(s, a)
  {
    if !s.pcs[a.t].Resting? && GoodDo(s, a).pcs[a.t].Resting? then Some(s.pcs[a.t].op) else None
  }

  predicate GoodInv(s: Good) {
    && 0 <= s.value <= s.limit
    && forall t | 0 <= t < |s.pcs| && s.pcs[t].Trying? :: Update(s.limit, s.pcs[t].op, s.pcs[t].current).Some?
  }

  /** Each call changes the counter in one step, the one that ends it, and there it does what the
      atomic specification does. */
  lemma GoodStepRefines(s: Good, a: GoodAction)
    requires GoodInv(s) && GoodEnabled(s, a)
    ensures GoodInv(GoodDo(s, a))
    ensures GoodDo(s, a).value
            == if Effect(s, a).Some? then SpecDo(s.limit, s.value, Effect(s, a).value) else s.value
  {
  }

  ghost predicate GoodRun(run: seq<Good>, acts: seq<GoodAction>) {
    && |run| == |acts| + 1
    && run[0] == GoodInitial(run[0].limit, |run[0].pcs|)
    && forall j | 0 <= j < |acts| :: GoodStepAt(run, acts, j)
  }

  ghost predicate GoodStepAt(run: seq<Good>, acts: seq<GoodAction>, j: nat)
    requires |run| == |acts| + 1 && j < |acts|
  {
    GoodEnabled(run[j], acts[j]) && run[j + 1] == GoodDo(run[j], acts[j])
  }

  /** The calls in the order in which they ended. */
  ghost function Effects(run: seq<Good>, acts: seq<GoodAction>, j: nat): seq<Op>
    requires GoodRun(run, acts) && j < |run|
  {
    if j == 0 then []
    else
      assert GoodStepAt(run, acts, j - 1);
      var e := Effect(run[j - 1], acts[j - 1]);
      Effects(run, acts, j - 1) + if e.Some? then [e.value] else []
  }

  function SpecAfter(max: int, ops: seq<Op>): int {
    if ops == [] then 0 else SpecDo(max, SpecAfter(max, ops[..|ops| - 1]), ops[|ops| - 1])
  }

  /** Every run of any number of threads is a run of the atomic clamped counter. */
  lemma {:induction false} GoodRunRefines(run: seq<Good>, acts: seq<GoodAction>, j: nat)
    requires GoodRun(run, acts) && j < |run| && run[0].limit >= 0
    ensures run[j].limit == run[0].limit && GoodInv(run[j])
    ensures run[j].value == SpecAfter(run[0].limit, Effects(run, acts, j))
  {
    if j == 0 {
    } else {
      GoodRunRefines(run, acts, j - 1);
      assert GoodStepAt(run, acts, j - 1);
      GoodStepRefines(run[j - 1], acts[j - 1]);
      var ops, e := Effects(run, acts, j - 1), Effect(run[j - 1], acts[j - 1]);
      if e.Some? {
        assert (ops + [e.value])[..|ops|] == ops;
      } else {
        assert ops + [] == ops;
      }
    }
  }

  // ----- Calls -----

  function GoodAt(s: Good, t: nat): GoodPC {
    if t < |s.pcs| then s.pcs[t] else Resting
  }

  predicate Pending(pc: GoodPC, op: Op) {
    pc == Starting(op) || (pc.Trying? && pc.op == op)
  }

  /** Step `call` is thread `t`'s call of `op`, and `end` is the first later state in which it rests. */
  ghost predicate IsGoodCall(run: seq<Good>, acts: seq<GoodAction>, t: nat, op: Op, call: nat, end: nat) {
    && GoodRun(run, acts)
    && call < end < |run|
    && acts[call] == Call(t, op)
    && GoodAt(run[end], t).Resting?
    && forall i | call < i < end :: !GoodAt(run[i], t).Resting?
  }

  lemma GoodStepPends(s: Good, a: GoodAction, t: nat, op: Op)
    requires GoodEnabled(s, a) && Pending(GoodAt(s, t), op)
    ensures Pending(GoodAt(GoodDo(s, a), t), op)
            || (GoodAt(GoodDo(s, a), t).Resting? && a.t == t && Effect(s, a) == Some(op))
  {
  }

  lemma {:induction false} CallPends(
    run: seq<Good>, acts: seq<GoodAction>, t: nat, op: Op, call: nat, end: nat, j: nat)
    requires IsGoodCall(run, acts, t, op, call, end) && call < j < end
    ensures Pending(GoodAt(run[j], t), op)
    decreases j
  {
    assert GoodStepAt(run, acts, j - 1);
    if j == call + 1 {
    } else {
      CallPends(run, acts, t, op, call, end, j - 1);
      GoodStepPends(run[j - 1], acts[j - 1], t, op);
    }
  }

  lemma CallIsNotImmediate(run: seq<Good>, acts: seq<GoodAction>, t: nat, op: Op, call: nat)
    requires GoodRun(run, acts) && call < |acts| && acts[call] == Call(t, op)
    ensures Pending(GoodAt(run[call + 1], t), op)
  {
    assert GoodStepAt(run, acts, call);
  }

  /** Every call that ends has taken effect once, at its end, as the operation that was called. */
  lemma CallTakesEffect(run: seq<Good>, acts: seq<GoodAction>, t: nat, op: Op, call: nat, end: nat)
    requires IsGoodCall(run, acts, t, op, call, end)
    ensures call < end - 1 && acts[end - 1].t == t
    ensures GoodEnabled(run[end - 1], acts[end - 1]) && Effect(run[end - 1], acts[end - 1]) == Some(op)
    ensures run[0].limit >= 0 ==> run[end].value == SpecDo(run[0].limit, run[end - 1].value, op)
  {
    CallIsNotImmediate(run, acts, t, op, call);
    CallPends(run, acts, t, op, call, end, end - 1);
    assert GoodStepAt(run, acts, end - 1);
    GoodStepPends(run[end - 1], acts[end - 1], t, op);
    if run[0].limit >= 0 {
      GoodRunRefines(run, acts, end - 1);
      GoodStepRefines(run[end - 1], acts[end - 1]);
    }
  }

  lemma GoodStepPended(s: Good, a: GoodAction, t: nat, op: Op)
    requires GoodEnabled(s, a) && Pending(GoodAt(GoodDo(s, a), t), op)
    ensures Pending(GoodAt(s, t), op) || (a == Call(t, op) && GoodAt(s, t).Resting?)
  {
  }

  lemma {:induction false} PendingWasCalled(run: seq<Good>, acts: seq<GoodAction>, t: nat, op: Op, j: nat)
    returns (call: nat)
    requires GoodRun(run, acts) && j < |run| && Pending(GoodAt(run[j], t), op)
    ensures call < j && acts[call] == Call(t, op)
    ensures forall i | call < i <= j :: Pending(GoodAt(run[i], t), op)
    decreases j
  {
    assert j > 0;
    assert GoodStepAt(run, acts, j - 1);
    GoodStepPended(run[j - 1], acts[j - 1], t, op);
    if Pending(GoodAt(run[j - 1], t), op) {
      call := PendingWasCalled(run, acts, t, op, j - 1);
    } else {
      call := j - 1;
    }
  }

  /** And nothing else takes effect: an effect is the end of a call of that operation. */
  lemma EffectsAreCalls(run: seq<Good>, acts: seq<GoodAction>, j: nat, op: Op) returns (call: nat)
    requires GoodRun(run, acts) && j < |acts|
    requires GoodEnabled(run[j], acts[j]) && Effect(run[j], acts[j]) == Some(op)
    ensures IsGoodCall(run, acts, acts[j].t, op, call, j + 1)
  {
    assert GoodStepAt(run, acts, j);
    call := PendingWasCalled(run, acts, acts[j].t, op, j);
  }

  /** The next step of a pending call, when its swap does not fail for no reason. */
  function OwnStep(s: Good, t: nat): Good
    requires t < |s.pcs| && !s.pcs[t].Resting?
  {
    GoodDo(s, if s.pcs[t].Starting? then Load(t) else Swap(t, false))
  }

  /** From any point of a call, however stale what it has read: left alone it ends within two steps,
      with the effect that the specification gives it on the value that is there. */
  lemma CallAloneEnds(s: Good, t: nat, op: Op)
    requires GoodInv(s) && t < |s.pcs| && Pending(s.pcs[t], op)
    ensures var s1 := OwnStep(s, t);
            var s2 := if s1.pcs[t].Resting? then s1 else OwnStep(s1, t);
            && s2.pcs == s.pcs[t := Resting]
            && s2.value == SpecDo(s.limit, s.value, op)
  {
    var s1 := OwnStep(s, t);
    assert s1.pcs[t].Resting? || s1.pcs[t] == Trying(op, s.value);
  }

  /** A swap that fails for no reason changes nothing and ends no call that has something to do. */
  lemma SpuriousFailureRetries(s: Good, t: nat, op: Op)
    requires t < |s.pcs| && s.pcs[t].Trying? && s.pcs[t].op == op
    ensures var s' := GoodDo(s, Swap(t, true));
            && s'.value == s.value
            && (SpecDo(s.limit, s.value, op) != s.value && 0 <= s.value <= s.limit ==> Pending(s'.pcs[t], op))
  {
  }

  /** The value after each step of a run is what the clamped counter has after the ended calls. */
  ghost predicate Agrees(run: seq<Good>, acts: seq<GoodAction>)
    requires GoodRun(run, acts)
  {
    forall j | 0 <= j < |run| :: run[j].value == SpecAfter(run[0].limit, Effects(run, acts, j))
  }

  ghost predicate AllRunsAgree(limit: int, n: nat) {
    forall run: seq<Good>, acts: seq<GoodAction>
      | GoodRun(run, acts) && run[0].limit == limit && |run[0].pcs| == n :: Agrees(run, acts)
  }

  /** With a limit below zero one increment separates the two: the code leaves zero alone, the
      specification goes to its maximum. */
  lemma OneIncrement(limit: int, n: nat) returns (run: seq<Good>, acts: seq<GoodAction>)
    requires limit < 0 && n >= 1
    ensures GoodRun(run, acts) && run[0].limit == limit && |run[0].pcs| == n
    ensures |run| == 3 && run[2].value == 0 && Effects(run, acts, 2) == [Inc]
  {
    var s0 := GoodInitial(limit, n);
    var s1 := GoodDo(s0, Call(0, Inc));
    run, acts := [s0, s1, GoodDo(s1, Load(0))], [Call(0, Inc), Load(0)];
    assert Effect(s0, acts[0]) == None && Effect(s1, acts[1]) == Some(Inc);
    assert Effects(run, acts, 1) == [];
  }

  /** Exactly when the counter meets its specification on all runs: when the limit is not negative. */
  lemma GoodRefinesIff(limit: int, n: nat)
    requires n >= 1
    ensures AllRunsAgree(limit, n) <==> limit >= 0
  {
    if limit >= 0 {
      forall run: seq<Good>, acts: seq<GoodAction>
        | GoodRun(run, acts) && run[0].limit == limit && |run[0].pcs| == n
        ensures Agrees(run, acts)
      {
        forall j | 0 <= j < |run| ensures run[j].value == SpecAfter(run[0].limit, Effects(run, acts, j)) {
          GoodRunRefines(run, acts, j);
        }
      }
    } else {
      var run, acts := OneIncrement(limit, n);
      assert [Inc][..0] == [];
      assert SpecAfter(limit, [Inc]) == limit;
      assert !Agrees(run, acts);
    }
  }

  // ----- The structs -----

  /** Its methods without interference: then even the check-then-act form meets the specification. */
  class BadMemCounter {
    const limit: int
    var value: int

    constructor (limit: int)
      ensures this.limit == limit && value == 0
    {
      this.limit := limit;
      value := 0;
    }

    method Inc()
      modifies this
      ensures IsI32(limit) && 0 <= old(value) <= limit ==> value == SpecDo(limit, old(value), Op.Inc)
      ensures old(value) >= limit ==> value == old(value)
    {
      if value < limit {
        value := Wrap(value + 1);
      }
    }

    method Dec()
      modifies this
      ensures IsI32(limit) && 0 <= old(value) <= limit ==> value == SpecDo(limit, old(value), Op.Dec)
      ensures old(value) <= 0 ==> value == old(value)
    {
      if value > 0 {
        value := Wrap(value - 1);
      }
    }

    method Get() returns (v: int)
      ensures v == value
    {
      v := value;
    }
  }

  class GoodMemCounter {
    const limit: int
    var value: int

    constructor (limit: int)
      ensures this.limit == limit && value == 0
    {
      this.limit := limit;
      value := 0;
    }

    /** The retry loop; `weakFailures` is how often the swap fails for no reason. */
    method FetchUpdate(op: Op, weakFailures: nat)
      modifies this
      ensures value == Update(limit, op, old(value)).GetOr(old(value))
      ensures 0 <= old(value) <= limit ==> value == SpecDo(limit, old(value), op) && 0 <= value <= limit
    {
      var left, prev := weakFailures, value;
      while Update(limit, op, prev).Some?
        invariant prev == value == old(value)
        decreases left
      {
        if left == 0 {
          value := Update(limit, op, prev).value;
          return;
        }
        left, prev := left - 1, value;
      }
    }

    method Get() returns (v: int)
      ensures v == value
    {
      v := value;
    }
  }
}
