/** Calls of the Go store from the request to the return: which program counters serve a request,
    what kind of result answers it, and what an acknowledged Put has done. */
module GoCalls {
  import opened Options
  import opened KeyValue
  import opened GoStore
  import opened GoHistory
  import opened GoProtocol

  /** Step `call` is thread `t`'s request, and `end` is the first later state in which the thread
      has returned. */
  ghost predicate IsCall(run: seq<Config>, acts: seq<Action>, t: nat, request: Request, call: nat, end: nat) {
    && IsRun(run, acts)
    && call < end < |run|
    && acts[call] == Invoke(t, request)
    && At(run[end], t).Returned?
    && forall i | call < i < end :: !At(run[i], t).Returned?
  }

  predicate InFlush(pc: PC) {
    pc.FlushWait? || HoldsFlushMutex(pc)
  }

  predicate InGet(pc: PC, k: Key, d: Durability) {
    (pc.GetHeld? || pc.GetScan?) && pc.key == k && pc.durability == d
  }

  /** `pc` is a point of the code that carries out `request`. */
  predicate Serves(pc: PC, request: Request) {
    match request
    case PutReq(k, e) => pc == PutWait(k, e) || pc == PutHeld(k, e)
    case GetReq(k, d) => pc == GetWait(k, d) || InGet(pc, k, d)
    case FlushReq => InFlush(pc)
  }

  predicate Answers(result: Result, request: Request) {
    match request
    case PutReq(_, _) => result == PutOk
    case GetReq(_, _) => result.Got?
    case FlushReq => result == FlushOk || result == FlushErr
  }

  lemma StepPcs(c: Config, a: Action, c': Config)
    requires IsStep(c, a, c')
    ensures c'.pcs == c.pcs[a.t := At(c', a.t)]
  {
  }

  lemma InvokeServes(c: Config, a: Action, c': Config)
    requires IsStep(c, a, c') && a.Invoke?
    ensures Free(At(c, a.t)) && Serves(At(c', a.t), a.request)
  {
  }

  lemma OwnFlushStepServes(c: Config, a: Action, c': Config)
    requires IsStep(c, a, c') && InFlush(c.pcs[a.t])
    ensures var pc := At(c', a.t); InFlush(pc) || (pc.Returned? && Answers(pc.result, FlushReq))
  {
  }

  lemma OwnStepServes(c: Config, a: Action, c': Config, request: Request)
    requires IsStep(c, a, c') && Serves(c.pcs[a.t], request)
    ensures var pc := At(c', a.t); Serves(pc, request) || (pc.Returned? && Answers(pc.result, request))
  {
    if request.FlushReq? {
      OwnFlushStepServes(c, a, c');
    }
  }

  /** A thread serves its request until it returns an answer to it. */
  lemma StepServes(c: Config, a: Action, c': Config, t: nat, request: Request)
    requires IsStep(c, a, c') && Serves(At(c, t), request)
    ensures var pc := At(c', t); Serves(pc, request) || (pc.Returned? && Answers(pc.result, request))
  {
    StepPcs(c, a, c');
    if a.t == t {
      OwnStepServes(c, a, c', request);
    }
  }

  lemma CallStarts(run: seq<Config>, acts: seq<Action>, t: nat, request: Request, call: nat)
    requires IsRun(run, acts) && call < |acts| && acts[call] == Invoke(t, request)
    ensures Serves(At(run[call + 1], t), request)
  {
    assert StepAt(run, acts, call);
    InvokeServes(run[call], acts[call], run[call + 1]);
  }

  lemma {:induction false} CallServes(
    run: seq<Config>, acts: seq<Action>, t: nat, request: Request, call: nat, end: nat, j: nat)
    requires IsCall(run, acts, t, request, call, end) && call < j < end
    ensures Serves(At(run[j], t), request)
    decreases j
  {
    if j == call + 1 {
      CallStarts(run, acts, t, request, call);
    } else {
      CallServes(run, acts, t, request, call, end, j - 1);
      assert StepAt(run, acts, j - 1);
      StepServes(run[j - 1], acts[j - 1], run[j], t, request);
    }
  }

  lemma LastStep(run: seq<Config>, acts: seq<Action>, t: nat, request: Request, call: nat, end: nat)
    requires IsCall(run, acts, t, request, call, end)
    ensures call + 1 < end && Serves(At(run[end - 1], t), request)
    ensures IsStep(run[end - 1], acts[end - 1], run[end])
    ensures acts[end - 1].t == t
  {
    CallStarts(run, acts, t, request, call);
    CallServes(run, acts, t, request, call, end, end - 1);
    assert StepAt(run, acts, end - 1);
    StepPcs(run[end - 1], acts[end - 1], run[end]);
  }

  /** Every call returns an answer of the kind that its request asks for. */
  lemma CallAnswers(run: seq<Config>, acts: seq<Action>, t: nat, request: Request, call: nat, end: nat)
    requires IsCall(run, acts, t, request, call, end)
    ensures Answers(At(run[end], t).result, request)
  {
    LastStep(run, acts, t, request, call, end);
    StepServes(run[end - 1], acts[end - 1], run[end], t, request);
  }

  // ----- Put and Delete -----

  lemma PutEnds(c: Config, a: Action, c': Config, t: nat, k: Key, e: Entry)
    requires IsStep(c, a, c') && a.t == t && Serves(At(c, t), PutReq(k, e)) && At(c', t).Returned?
    ensures c'.world.history == c.world.history + [Op(k, e)]
    ensures c'.world.store == c.world.store.(buffer := c.world.store.buffer[k := e])
  {
  }

  /** An acknowledged Put or Delete is in the history: its return step appends exactly that write,
      and puts its entry over whatever the active buffer held for the key. */
  lemma PutIsAccepted(run: seq<Config>, acts: seq<Action>, t: nat, k: Key, e: Entry, call: nat, end: nat)
    requires IsCall(run, acts, t, PutReq(k, e), call, end)
    ensures call < end - 1 && At(run[end], t).result == PutOk
    ensures run[end].world.history == run[end - 1].world.history + [Op(k, e)]
    ensures run[end].world.store
            == run[end - 1].world.store.(buffer := run[end - 1].world.store.buffer[k := e])
  {
    LastStep(run, acts, t, PutReq(k, e), call, end);
    CallAnswers(run, acts, t, PutReq(k, e), call, end);
    PutEnds(run[end - 1], acts[end - 1], run[end], t, k, e);
  }

  lemma HistoryMoves(c: Config, a: Action, c': Config)
    requires IsStep(c, a, c') && c'.world.history != c.world.history
    ensures c.pcs[a.t].PutHeld? && At(c', a.t) == Returned(PutOk)
    ensures c'.world.history == c.world.history + [Op(c.pcs[a.t].key, c.pcs[a.t].entry)]
  {
  }

  lemma StepServedBefore(c: Config, a: Action, c': Config, t: nat, request: Request)
    requires IsStep(c, a, c') && Serves(At(c', t), request)
    ensures Serves(At(c, t), request) || a == Invoke(t, request)
  {
    StepPcs(c, a, c');
    if a.t == t {
      OwnServedBefore(c, a, c', request);
    }
  }

  lemma OwnServedBefore(c: Config, a: Action, c': Config, request: Request)
    requires IsStep(c, a, c') && Serves(At(c', a.t), request)
    ensures Serves(c.pcs[a.t], request) || a == Invoke(a.t, request)
  {
    if a.Invoke? {
      InvokeServes(c, a, c');
    } else if InFlush(c.pcs[a.t]) {
      OwnFlushStepServes(c, a, c');
    }
  }

  /** Whoever serves a request was asked to. */
  lemma {:induction false} ServedWasCalled(run: seq<Config>, acts: seq<Action>, t: nat, request: Request, j: nat)
    returns (call: nat)
    requires IsRun(run, acts) && j < |run| && Serves(At(run[j], t), request)
    ensures call < j && acts[call] == Invoke(t, request)
    ensures forall i | call < i <= j :: Serves(At(run[i], t), request)
    decreases j
  {
    assert j > 0;
    assert StepAt(run, acts, j - 1);
    StepServedBefore(run[j - 1], acts[j - 1], run[j], t, request);
    if Serves(At(run[j - 1], t), request) {
      call := ServedWasCalled(run, acts, t, request, j - 1);
    } else {
      call := j - 1;
    }
  }

  /** And nothing else is in the history: a step that changes it is the return of a pending Put or
      Delete, and appends that one's write. */
  lemma HistoryIsPuts(run: seq<Config>, acts: seq<Action>, j: nat)
    returns (t: nat, k: Key, e: Entry, call: nat)
    requires IsRun(run, acts) && j < |acts|
    requires run[j + 1].world.history != run[j].world.history
    ensures IsCall(run, acts, t, PutReq(k, e), call, j + 1)
    ensures run[j + 1].world.history == run[j].world.history + [Op(k, e)]
  {
    assert StepAt(run, acts, j);
    HistoryMoves(run[j], acts[j], run[j + 1]);
    t := acts[j].t;
    var PutHeld(key, entry) := run[j].pcs[t];
    k, e := key, entry;
    call := ServedWasCalled(run, acts, t, PutReq(k, e), j);
  }

  // ----- Get -----

  lemma LocksFirst(c: Config, a: Action, c': Config, t: nat, k: Key, d: Durability)
    requires IsStep(c, a, c') && Serves(At(c, t), GetReq(k, d)) && At(c', t).GetScan?
    ensures InGet(At(c, t), k, d)
  {
    StepPcs(c, a, c');
  }

  /** A Get that reads has taken the lock before, within its call. */
  lemma {:induction false} GetLocks(
    run: seq<Config>, acts: seq<Action>, t: nat, k: Key, d: Durability, call: nat, end: nat, j: nat)
    returns (start: nat)
    requires IsCall(run, acts, t, GetReq(k, d), call, end) && call < j < end
    requires InGet(At(run[j], t), k, d)
    ensures call < start <= j && At(run[start], t).GetHeld?
    ensures forall i | start <= i <= j :: InGet(At(run[i], t), k, d)
    decreases j
  {
    if At(run[j], t).GetHeld? {
      start := j;
    } else {
      NotAtOnce(run, acts, t, k, d, call);
      CallServes(run, acts, t, GetReq(k, d), call, end, j - 1);
      assert StepAt(run, acts, j - 1);
      LocksFirst(run[j - 1], acts[j - 1], run[j], t, k, d);
      start := GetLocks(run, acts, t, k, d, call, end, j - 1);
    }
  }

  lemma NotAtOnce(run: seq<Config>, acts: seq<Action>, t: nat, k: Key, d: Durability, call: nat)
    requires IsRun(run, acts) && call < |acts| && acts[call] == Invoke(t, GetReq(k, d))
    ensures At(run[call + 1], t).GetWait?
  {
    assert StepAt(run, acts, call);
  }

  lemma LocksBeforeReturn(c: Config, a: Action, c': Config, t: nat, k: Key, d: Durability)
    requires IsStep(c, a, c') && Serves(At(c, t), GetReq(k, d)) && At(c', t).Returned?
    ensures InGet(At(c, t), k, d)
  {
    StepPcs(c, a, c');
  }

  /** The stretch of a Get call from its lock to its return. */
  lemma GetStretch(run: seq<Config>, acts: seq<Action>, t: nat, k: Key, d: Durability, call: nat, end: nat)
    returns (start: nat)
    requires IsCall(run, acts, t, GetReq(k, d), call, end)
    ensures call < start < end && At(run[start], t).GetHeld?
    ensures forall i | start <= i < end :: InGet(At(run[i], t), k, d)
    ensures At(run[end], t).result.Got?
  {
    LastStep(run, acts, t, GetReq(k, d), call, end);
    CallAnswers(run, acts, t, GetReq(k, d), call, end);
    LocksBeforeReturn(run[end - 1], acts[end - 1], run[end], t, k, d);
    start := GetLocks(run, acts, t, k, d, call, end, end - 1);
  }

  // ----- Flush -----

  lemma FlushEnds(c: Config, a: Action, c': Config)
    requires IsStep(c, a, c') && InFlush(c.pcs[a.t]) && At(c', a.t).Returned?
    ensures At(c', a.t).result == if a.WriteFails? then FlushErr else FlushOk
  {
  }

  predicate FailsWriteOf(a: Action, t: nat) {
    a.WriteFails? && a.t == t
  }

  lemma FailedWriteReturns(c: Config, a: Action, c': Config)
    requires IsStep(c, a, c') && a.WriteFails?
    ensures At(c', a.t).Returned?
  {
  }

  /** A flush reports an error if and only if its segment write did, and that ends it. */
  lemma FlushErrIff(run: seq<Config>, acts: seq<Action>, t: nat, call: nat, end: nat)
    requires IsCall(run, acts, t, FlushReq, call, end)
    ensures At(run[end], t).result == FlushErr <==> exists i | call < i < end :: FailsWriteOf(acts[i], t)
    ensures At(run[end], t).result == FlushErr ==> FailsWriteOf(acts[end - 1], t)
    ensures At(run[end], t).result != FlushErr ==> At(run[end], t).result == FlushOk
  {
    LastStep(run, acts, t, FlushReq, call, end);
    FlushEnds(run[end - 1], acts[end - 1], run[end]);
    forall i | call < i < end && FailsWriteOf(acts[i], t) ensures i == end - 1 {
      assert StepAt(run, acts, i);
      FailedWriteReturns(run[i], acts[i], run[i + 1]);
    }
    if At(run[end], t).result == FlushErr {
      assert FailsWriteOf(acts[end - 1], t);
    }
  }

  lemma FlushStretch(run: seq<Config>, acts: seq<Action>, t: nat, call: nat, end: nat)
    requires IsCall(run, acts, t, FlushReq, call, end)
    ensures forall i | call < i < end :: InFlush(At(run[i], t))
  {
    forall i | call < i < end ensures InFlush(At(run[i], t)) {
      CallServes(run, acts, t, FlushReq, call, end, i);
    }
  }
}
