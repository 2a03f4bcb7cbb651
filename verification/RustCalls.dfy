/** Calls of the Rust store from the request to the return: which program counters serve a request,
    what kind of result answers it, and what an acknowledged put has done. */
module RustCalls {
  import opened Options
  import opened KeyValue
  import opened RustHistory
  import opened RustProtocol

  /** Step `call` is task `t`'s request, and `end` is the first later state in which the task has
      returned. */
  ghost predicate IsCall(run: seq<Config>, acts: seq<Action>, t: nat, request: Request, call: nat, end: nat) {
    && IsRun(run, acts)
    && call < end < |run|
    && acts[call] == Invoke(t, request)
    && At(run[end], t).Returned?
    && forall i | call < i < end :: !At(run[i], t).Returned?
  }

  predicate InFlush(pc: PC) {
    pc.FlushWait? || HoldsGate(pc)
  }

  /** Before its listing a dirty get is at one of three points, one for each layer it has yet to read. */
  predicate BeforeSegments(pc: PC, k: Key) {
    pc == GetBuf(k) || pc == GetFrozen(k) || pc == GetList(k, Memory)
  }

  predicate InDirtyGet(pc: PC, k: Key) {
    BeforeSegments(pc, k) || (pc.GetSegments? && pc.key == k && pc.durability.Memory?)
  }

  predicate InCleanGet(pc: PC, k: Key) {
    pc == GetList(k, Remote) || (pc.GetSegments? && pc.key == k && pc.durability.Remote?)
  }

  /** `pc` is a point of the code that carries out `request`. */
  predicate Serves(pc: PC, request: Request) {
    match request
    case PutReq(k, e) => pc == PutWait(k, e)
    case GetReq(k, d) => if d.Memory? then InDirtyGet(pc, k) else InCleanGet(pc, k)
    case FlushReq => InFlush(pc)
  }

  predicate Answers(result: Result, request: Request) {
    match request
    case PutReq(_, _) => result == PutOk
    case GetReq(_, _) => result.Got?
    case FlushReq => result == FlushOk || result == FlushErr
  }

  lemma StepPcs(c: Config, a: Action, c': Config)
    requires IsStep(c, a, c')
    ensures c'.pcs == c.pcs[a.t := At(c', a.t)]
  {
  }

  lemma InvokeServes(c: Config, a: Action, c': Config)
    requires IsStep(c, a, c') && a.Invoke?
    ensures Free(At(c, a.t)) && Serves(At(c', a.t), a.request)
    ensures a.request.GetReq? && a.request.durability.Memory? ==> At(c', a.t) == GetBuf(a.request.key)
  {
  }

  lemma OwnStepServes(c: Config, a: Action, c': Config, request: Request)
    requires IsStep(c, a, c') && Serves(c.pcs[a.t], request)
    ensures var pc := At(c', a.t); Serves(pc, request) || (pc.Returned? && Answers(pc.result, request))
  {
  }

  /** A task serves its request until it returns an answer to it. */
  lemma StepServes(c: Config, a: Action, c': Config, t: nat, request: Request)
    requires IsStep(c, a, c') && Serves(At(c, t), request)
    ensures var pc := At(c', t); Serves(pc, request) || (pc.Returned? && Answers(pc.result, request))
  {
    StepPcs(c, a, c');
    if a.t == t {
      OwnStepServes(c, a, c', request);
    }
  }

  lemma CallStarts(run: seq<Config>, acts: seq<Action>, t: nat, request: Request, call: nat)
    requires IsRun(run, acts) && call < |acts| && acts[call] == Invoke(t, request)
    ensures Serves(At(run[call + 1], t), request)
    ensures request.GetReq? && request.durability.Memory? ==> At(run[call + 1], t) == GetBuf(request.key)
    ensures request.FlushReq? ==> At(run[call + 1], t).FlushWait?
  {
    assert StepAt(run, acts, call);
    InvokeServes(run[call], acts[call], run[call + 1]);
  }

  lemma {:induction false} CallServes(
    run: seq<Config>, acts: seq<Action>, t: nat, request: Request, call: nat, end: nat, j: nat)
    requires IsCall(run, acts, t, request, call, end) && call < j < end
    ensures Serves(At(run[j], t), request)
    decreases j
  {
    if j == call + 1 {
      CallStarts(run, acts, t, request, call);
    } else {
      CallServes(run, acts, t, request, call, end, j - 1);
      assert StepAt(run, acts, j - 1);
      StepServes(run[j - 1], acts[j - 1], run[j], t, request);
    }
  }

  lemma LastStep(run: seq<Config>, acts: seq<Action>, t: nat, request: Request, call: nat, end: nat)
    requires IsCall(run, acts, t, request, call, end)
    ensures call + 1 < end && Serves(At(run[end - 1], t), request)
    ensures IsStep(run[end - 1], acts[end - 1], run[end])
    ensures acts[end - 1].t == t
  {
    CallStarts(run, acts, t, request, call);
    CallServes(run, acts, t, request, call, end, end - 1);
    assert StepAt(run, acts, end - 1);
    StepPcs(run[end - 1], acts[end - 1], run[end]);
  }

  /** Every call returns an answer of the kind that its request asks for. */
  lemma CallAnswers(run: seq<Config>, acts: seq<Action>, t: nat, request: Request, call: nat, end: nat)
    requires IsCall(run, acts, t, request, call, end)
    ensures Answers(At(run[end], t).result, request)
  {
    LastStep(run, acts, t, request, call, end);
    StepServes(run[end - 1], acts[end - 1], run[end], t, request);
  }

  lemma CallStretch(run: seq<Config>, acts: seq<Action>, t: nat, request: Request, call: nat, end: nat)
    requires IsCall(run, acts, t, request, call, end)
    ensures forall i | call < i < end :: Serves(At(run[i], t), request)
  {
    forall i | call < i < end ensures Serves(At(run[i], t), request) {
      CallServes(run, acts, t, request, call, end, i);
    }
  }

  // ----- put and delete -----

  lemma PutEnds(c: Config, a: Action, c': Config, t: nat, k: Key, e: Entry)
    requires IsStep(c, a, c') && a.t == t && Serves(At(c, t), PutReq(k, e)) && At(c', t).Returned?
    ensures c'.world.history == c.world.history + [Op(k, e)]
    ensures c'.world.store == c.world.store.(buf := c.world.store.buf[k := e])
  {
  }

  /** An acknowledged put or delete is in the history: its return step appends exactly that write,
      and puts its entry over whatever `buf` held for the key. */
  lemma PutIsAccepted(run: seq<Config>, acts: seq<Action>, t: nat, k: Key, e: Entry, call: nat, end: nat)
    requires IsCall(run, acts, t, PutReq(k, e), call, end)
    ensures call < end - 1 && At(run[end], t).result == PutOk
    ensures run[end].world.history == run[end - 1].world.history + [Op(k, e)]
    ensures run[end].world.store == run[end - 1].world.store.(buf := run[end - 1].world.store.buf[k := e])
  {
    LastStep(run, acts, t, PutReq(k, e), call, end);
    CallAnswers(run, acts, t, PutReq(k, e), call, end);
    PutEnds(run[end - 1], acts[end - 1], run[end], t, k, e);
  }

  lemma HistoryMoves(c: Config, a: Action, c': Config)
    requires IsStep(c, a, c') && c'.world.history != c.world.history
    ensures c.pcs[a.t].PutWait? && At(c', a.t) == Returned(PutOk)
    ensures c'.world.history == c.world.history + [Op(c.pcs[a.t].key, c.pcs[a.t].entry)]
  {
  }

  lemma OwnPutServedBefore(c: Config, a: Action, c': Config, k: Key, e: Entry)
    requires IsStep(c, a, c') && At(c', a.t) == PutWait(k, e)
    ensures a == Invoke(a.t, PutReq(k, e))
  {
    if a.Invoke? {
      InvokeServes(c, a, c');
    }
  }

  /** A task that is about to put was asked to. */
  lemma {:induction false} PutWasCalled(run: seq<Config>, acts: seq<Action>, t: nat, k: Key, e: Entry, j: nat)
    returns (call: nat)
    requires IsRun(run, acts) && j < |run| && At(run[j], t) == PutWait(k, e)
    ensures call < j && acts[call] == Invoke(t, PutReq(k, e))
    ensures forall i | call < i <= j :: At(run[i], t) == PutWait(k, e)
    decreases j
  {
    assert j > 0;
    assert StepAt(run, acts, j - 1);
    StepPcs(run[j - 1], acts[j - 1], run[j]);
    if acts[j - 1].t == t {
      OwnPutServedBefore(run[j - 1], acts[j - 1], run[j], k, e);
      call := j - 1;
    } else {
      call := PutWasCalled(run, acts, t, k, e, j - 1);
    }
  }

  /** And nothing else is in the history: a step that changes it is the return of a pending put or
      delete, and appends that one's write. */
  lemma HistoryIsPuts(run: seq<Config>, acts: seq<Action>, j: nat)
    returns (t: nat, k: Key, e: Entry, call: nat)
    requires IsRun(run, acts) && j < |acts|
    requires run[j + 1].world.history != run[j].world.history
    ensures IsCall(run, acts, t, PutReq(k, e), call, j + 1)
    ensures run[j + 1].world.history == run[j].world.history + [Op(k, e)]
  {
    assert StepAt(run, acts, j);
    HistoryMoves(run[j], acts[j], run[j + 1]);
    t := acts[j].t;
    var PutWait(key, entry) := run[j].pcs[t];
    k, e := key, entry;
    call := PutWasCalled(run, acts, t, k, e, j);
  }

  // ----- flush -----

  predicate FailsWriteOf(a: Action, t: nat) {
    a.PutFails? && a.t == t
  }

  lemma FlushEnds(c: Config, a: Action, c': Config)
    requires IsStep(c, a, c') && InFlush(c.pcs[a.t]) && At(c', a.t).Returned?
    ensures At(c', a.t).result == if a.PutFails? then FlushErr else FlushOk
  {
  }

  lemma FailedPutReturns(c: Config, a: Action, c': Config)
    requires IsStep(c, a, c') && a.PutFails?
    ensures At(c', a.t).Returned?
  {
  }

  /** A flush reports an error if and only if its segment put did, and that ends it. */
  lemma FlushErrIff(run: seq<Config>, acts: seq<Action>, t: nat, call: nat, end: nat)
    requires IsCall(run, acts, t, FlushReq, call, end)
    ensures At(run[end], t).result == FlushErr <==> exists i | call < i < end :: FailsWriteOf(acts[i], t)
    ensures At(run[end], t).result == FlushErr ==> FailsWriteOf(acts[end - 1], t)
    ensures At(run[end], t).result != FlushErr ==> At(run[end], t).result == FlushOk
  {
    LastStep(run, acts, t, FlushReq, call, end);
    FlushEnds(run[end - 1], acts[end - 1], run[end]);
    forall i | call < i < end && FailsWriteOf(acts[i], t) ensures i == end - 1 {
      assert StepAt(run, acts, i);
      FailedPutReturns(run[i], acts[i], run[i + 1]);
    }
    if At(run[end], t).result == FlushErr {
      assert FailsWriteOf(acts[end - 1], t);
    }
  }
}
