/** With all segment writes succeeding, every run of the Go store is a behaviour of its
    specification. */
module GoRefinesSpec {
  import opened Options
  import opened KeyValue
  import opened BlobNames
  import opened GoStore
  import opened Epochs
  import opened GoCalls
  import opened GoProtocol
  import GoRuns
  import opened FizzSpec

  ghost function SpecData(bucket: Bucket, n: nat): map<string, Buffer>
    requires BucketReadable(bucket)
  {
    if n == 0 then map[]
    else if Written(bucket, n) then SpecData(bucket, n - 1)[Filename(n) := UntagAll(bucket[BlobKey(n)])]
    else SpecData(bucket, n - 1)
  }

  /** The specification counts a segment when it is written, the code when it is frozen. */
  function SpecIndex(s: Store): nat {
    if s.flushID > 0 && !Written(s.bucket, s.flushID) then s.flushID else s.flushID + 1
  }

  function SpecFlush(c: Config): FlushPc {
    if c.flushMutex.None? || c.flushMutex.value >= |c.pcs| then NotFlushing
    else match c.pcs[c.flushMutex.value]
         case FlushWrite(_, _) => Frozen
         case FlushRelock => Wrote
         case FlushClear => Wrote
         case _ => NotFlushing
  }

  /** Decoded layers, the shifted counter, and the position of the one active flush. */
  ghost function Abstract(c: Config): Spec
    requires Readable(c.world.store)
  {
    var s := c.world.store;
    Spec(s.buffer, FrozenLayer(s), SpecIndex(s), SpecData(s.bucket, s.flushID), SpecFlush(c),
         Replay(c.world.history))
  }

  /** What a step does in the specification. A Get happens where it finds its key in a buffer
      or reads the newest segment; an early return is a whole flush that changes nothing. */
  ghost function Shows(c: Config, a: Action): seq<SpecAction>
    requires Enabled(c, a) && Readable(c.world.store)
  {
    var s := c.world.store;
    match a
    case Invoke(_, _) => []
    case WriteFails(_, _) => []
    case Advance(t) =>
      match c.pcs[t]
      case PutHeld(k, e) => [SPut(k, e)]
      case GetHeld(k, d) =>
        if LookAtBuffers(c, t, k, d).pcs[t].Returned? then [SGet(k, d.Memory?, AtomicGet(s, k, d))] else []
      case GetScan(k, d, i) =>
        if i == s.flushID then [SGet(k, d.Memory?, AtomicGet(s, k, d))] else []
      case FlushHeld => if s.buffer == map[] then [SFreeze, SWrite, SClear] else [SFreeze]
      case FlushWrite(_, _) => [SWrite]
      case FlushClear => [SClear]
      case _ => []
  }

  lemma {:induction false} SpecDataAt(bucket: Bucket, n: nat, i: nat)
    requires BucketReadable(bucket)
    ensures Filename(i) in SpecData(bucket, n) <==> 1 <= i <= n && Written(bucket, i)
    ensures 1 <= i <= n && Written(bucket, i) ==>
              SpecData(bucket, n)[Filename(i)] == UntagAll(bucket[BlobKey(i)])
  {
    if n == 0 {
    } else {
      SpecDataAt(bucket, n - 1, i);
      FilenameInjective(i, n);
    }
  }

  lemma {:induction false} SpecScanMatches(bucket: Bucket, n: nat, top: nat, k: Key)
    requires BucketReadable(bucket) && n <= top
    ensures SpecScan(SpecData(bucket, top), n + 1, k) == Scan(bucket, n, k)
  {
    if n == 0 {
    } else {
      SpecScanMatches(bucket, n - 1, top, k);
      SpecDataAt(bucket, top, n);
    }
  }

  /** Both machines read alike in related states. */
  lemma GetsAgree(c: Config, k: Key, d: Durability)
    requires Readable(c.world.store)
    ensures SpecGet(Abstract(c), k, d.Memory?) == AtomicGet(c.world.store, k, d)
  {
    var s := c.world.store;
    SpecScanMatches(s.bucket, SpecIndex(s) - 1, s.flushID, k);
  }

  lemma {:induction false} SpecDataIgnores(bucket: Bucket, id: nat, data: Blob, n: nat)
    requires BucketReadable(bucket) && WellTagged(data) && id > n
    ensures SpecData(bucket[BlobKey(id) := data], n) == SpecData(bucket, n)
  {
    if n == 0 {
    } else {
      BlobKeyInjective(id, n);
      SpecDataIgnores(bucket, id, data, n - 1);
    }
  }

  /** Before a freeze, without failures, nothing is frozen and every segment is written. */
  lemma ReadyToFreeze(c: Config, t: nat)
    requires Inv(c) && t < |c.pcs| && c.pcs[t].FlushHeld? && c.world.failures == {}
    ensures Readable(c.world.store)
    ensures c.world.store.frozen == None && c.flushMutex == Some(t)
    ensures c.world.store.flushID > 0 ==> Written(c.world.store.bucket, c.world.store.flushID)
    ensures !Written(c.world.store.bucket, c.world.store.flushID + 1)
  {
    assert HoldsFlushMutex(c.pcs[t]);
  }

  lemma FlushHeldSimulates(c: Config, t: nat)
    requires Inv(c) && Enabled(c, Advance(t)) && Readable(c.world.store) && c.pcs[t].FlushHeld?
    requires c.world.failures == {}
    requires Readable(Do(c, Advance(t)).world.store)
    ensures Behaves(Abstract(c), Shows(c, Advance(t)), Abstract(Do(c, Advance(t))))
  {
    ReadyToFreeze(c, t);
    if c.world.store.buffer == map[] {
      EmptyFlushSimulates(c, t);
    } else {
      FreezeSimulates(c, t);
    }
  }

  lemma EmptyFlushSimulates(c: Config, t: nat)
    requires Enabled(c, Advance(t)) && Readable(c.world.store) && c.pcs[t].FlushHeld?
    requires c.world.store.buffer == map[] && c.world.store.frozen == None && c.flushMutex == Some(t)
    ensures Do(c, Advance(t)).world == c.world
    ensures Behaves(Abstract(c), Shows(c, Advance(t)), Abstract(Do(c, Advance(t))))
  {
    assert Abstract(Do(c, Advance(t))) == Abstract(c);
    EmptyFlushBehaves(Abstract(c));
  }

  lemma FreezeSimulates(c: Config, t: nat)
    requires Enabled(c, Advance(t)) && Readable(c.world.store) && c.pcs[t].FlushHeld?
    requires c.world.store.buffer != map[] && c.world.store.frozen == None && c.flushMutex == Some(t)
    requires c.world.store.flushID > 0 ==> Written(c.world.store.bucket, c.world.store.flushID)
    requires !Written(c.world.store.bucket, c.world.store.flushID + 1)
    requires Readable(Do(c, Advance(t)).world.store)
    ensures Behaves(Abstract(c), Shows(c, Advance(t)), Abstract(Do(c, Advance(t))))
  {
    assert Abstract(Do(c, Advance(t))) == SpecDo(Abstract(c), SFreeze);
    BehavesOne(Abstract(c), SFreeze);
  }

  lemma WriteSimulates(c: Config, t: nat)
    requires Inv(c) && Enabled(c, Advance(t)) && Readable(c.world.store) && c.pcs[t].FlushWrite?
    requires Readable(Do(c, Advance(t)).world.store)
    ensures Behaves(Abstract(c), Shows(c, Advance(t)), Abstract(Do(c, Advance(t))))
  {
    var w, s, c' := c.world, Abstract(c), Do(c, Advance(t));
    var n := w.store.flushID;
    assert ThreadOk(w, c.pcs[t]);
    assert HoldsFlushMutex(c.pcs[t]);
    ReplayEmpty(Epoch(w.history, w.marks, n));
    assert s.immutableBuf == Replay(Epoch(w.history, w.marks, n)) != map[];
    SpecDataIgnores(w.store.bucket, n, w.store.frozen.value, n - 1);
    assert Abstract(c').data == s.data[Filename(n) := s.immutableBuf];
    assert Abstract(c') == SpecDo(s, SWrite);
    BehavesOne(s, SWrite);
  }

  lemma ClearSimulates(c: Config, t: nat)
    requires Inv(c) && Enabled(c, Advance(t)) && Readable(c.world.store) && c.pcs[t].FlushClear?
    requires Readable(Do(c, Advance(t)).world.store)
    ensures Behaves(Abstract(c), Shows(c, Advance(t)), Abstract(Do(c, Advance(t))))
  {
    assert HoldsFlushMutex(c.pcs[t]);
    assert Abstract(Do(c, Advance(t))) == SpecDo(Abstract(c), SClear);
    BehavesOne(Abstract(c), SClear);
  }

  predicate ChangesWorld(pc: PC) {
    pc.PutHeld? || pc.FlushHeld? || pc.FlushWrite? || pc.FlushClear?
  }

  lemma QuietStepKeepsAbstract(c: Config, a: Action)
    requires LocksOk(c) && Enabled(c, a) && Readable(c.world.store)
    requires a.Invoke? || (a.Advance? && !ChangesWorld(c.pcs[a.t]))
    ensures Do(c, a).world == c.world
    ensures Abstract(Do(c, a)) == Abstract(c)
  {
    assert HoldsFlushMutex(c.pcs[a.t]) <==> c.flushMutex == Some(a.t);
  }

  lemma QuietStepSimulates(c: Config, a: Action)
    requires LocksOk(c) && Enabled(c, a) && Readable(c.world.store)
    requires a.Invoke? || (a.Advance? && !ChangesWorld(c.pcs[a.t]))
    ensures Do(c, a).world == c.world
    ensures Behaves(Abstract(c), Shows(c, a), Abstract(Do(c, a)))
  {
    var pc := c.pcs[a.t];
    QuietStepKeepsAbstract(c, a);
    if a.Advance? && (pc.GetHeld? || pc.GetScan?) && Shows(c, a) != [] {
      GetsAgree(c, pc.key, pc.durability);
      BehavesOne(Abstract(c), Shows(c, a)[0]);
      assert Shows(c, a) == [Shows(c, a)[0]];
    }
  }

  lemma PutSimulates(c: Config, t: nat)
    requires Inv(c) && Enabled(c, Advance(t)) && Readable(c.world.store) && c.pcs[t].PutHeld?
    requires Readable(Do(c, Advance(t)).world.store)
    ensures Behaves(Abstract(c), Shows(c, Advance(t)), Abstract(Do(c, Advance(t))))
  {
    var PutHeld(k, e) := c.pcs[t];
    var s, c' := Abstract(c), Do(c, Advance(t));
    ReplaySnoc(c.world.history, Op(k, e));
    assert !HoldsFlushMutex(c.pcs[t]);
    assert Abstract(c') == SpecDo(s, SPut(k, e));
    BehavesOne(s, SPut(k, e));
  }

  lemma StepsDoNotFail(c: Config, a: Action)
    requires Enabled(c, a) && Readable(c.world.store) && Do(c, a).world.failures == {}
    ensures !a.WriteFails? && c.world.failures == {}
  {
  }

  /** Forward simulation, one step. */
  lemma StepSimulates(c: Config, a: Action)
    requires Inv(c) && Enabled(c, a) && Readable(c.world.store)
    requires Readable(Do(c, a).world.store) && Do(c, a).world.failures == {}
    ensures Behaves(Abstract(c), Shows(c, a), Abstract(Do(c, a)))
  {
    StepsDoNotFail(c, a);
    if a.Invoke? || !ChangesWorld(c.pcs[a.t]) {
      QuietStepSimulates(c, a);
    } else if c.pcs[a.t].PutHeld? {
      PutSimulates(c, a.t);
    } else if c.pcs[a.t].FlushHeld? {
      FlushHeldSimulates(c, a.t);
    } else if c.pcs[a.t].FlushWrite? {
      WriteSimulates(c, a.t);
    } else {
      ClearSimulates(c, a.t);
    }
  }

  ghost function Trace(run: seq<Config>, acts: seq<Action>, j: nat): seq<SpecAction>
    requires IsRun(run, acts) && j < |run|
  {
    if j == 0 then []
    else
      assert StepAt(run, acts, j - 1);
      Trace(run, acts, j - 1) + Shows(run[j - 1], acts[j - 1])
  }

  lemma RunStepSimulates(run: seq<Config>, acts: seq<Action>, j: nat)
    requires IsRun(run, acts) && j < |acts| && run[j + 1].world.failures == {}
    ensures Readable(run[j].world.store) && Readable(run[j + 1].world.store) && Enabled(run[j], acts[j])
    ensures Behaves(Abstract(run[j]), Shows(run[j], acts[j]), Abstract(run[j + 1]))
  {
    RunKeepsInv(run, acts, j);
    GoRuns.RunWorldOk(run, acts, j + 1);
    assert StepAt(run, acts, j);
    StepSimulates(run[j], acts[j]);
  }

  ghost predicate Matches(run: seq<Config>, acts: seq<Action>, j: nat)
    requires IsRun(run, acts) && j < |run|
  {
    Readable(run[j].world.store) && Behaves(SPEC_INIT, Trace(run, acts, j), Abstract(run[j]))
  }

  lemma InitialMatches(run: seq<Config>, acts: seq<Action>)
    requires IsRun(run, acts)
    ensures Matches(run, acts, 0)
  {
    assert Abstract(run[0]) == SPEC_INIT;
  }

  lemma StepMatches(run: seq<Config>, acts: seq<Action>, j: nat)
    requires IsRun(run, acts) && j < |acts| && run[j + 1].world.failures == {}
    requires Matches(run, acts, j)
    ensures Matches(run, acts, j + 1)
  {
    RunStepSimulates(run, acts, j);
    BehavesConcat(SPEC_INIT, Trace(run, acts, j), Abstract(run[j]), Shows(run[j], acts[j]), Abstract(run[j + 1]));
  }

  /** Every run without failed writes is a behaviour of the specification. */
  lemma {:induction false} RunRefinesSpec(run: seq<Config>, acts: seq<Action>, j: nat)
    requires IsRun(run, acts) && j < |run| && run[j].world.failures == {}
    ensures Matches(run, acts, j)
  {
    if j == 0 {
      InitialMatches(run, acts);
    } else {
      GoRuns.RunGrows(run, acts, j - 1, j);
      RunRefinesSpec(run, acts, j - 1);
      StepMatches(run, acts, j - 1);
    }
  }

  /** In that behaviour each Get of the run appears within its call, as a Get of the specification
      for the key and the level that were asked for and with the result that was returned. */
  lemma GetIsShown(
    run: seq<Config>, acts: seq<Action>, t: nat, k: Key, d: Durability, call: nat, end: nat) returns (m: nat)
    requires IsCall(run, acts, t, GetReq(k, d), call, end)
    ensures call < m < end && Readable(run[m].world.store) && Enabled(run[m], acts[m])
    ensures At(run[end], t).result.Got?
    ensures Shows(run[m], acts[m]) == [SGet(k, d.Memory?, At(run[end], t).result.entry)]
  {
    m := GoRuns.GetIsLinearizable(run, acts, t, k, d, call, end);
    assert StepAt(run, acts, m);
  }

  /** And each Put or Delete appears at its return, as the Put of the specification with the key and
      the entry that were asked for. */
  lemma PutIsShown(run: seq<Config>, acts: seq<Action>, t: nat, k: Key, e: Entry, call: nat, end: nat)
    requires IsCall(run, acts, t, PutReq(k, e), call, end)
    ensures call < end - 1 && Readable(run[end - 1].world.store) && Enabled(run[end - 1], acts[end - 1])
    ensures Shows(run[end - 1], acts[end - 1]) == [SPut(k, e)]
  {
    LastStep(run, acts, t, PutReq(k, e), call, end);
  }

  predicate PastWrite(pc: PC) {
    pc.FlushRelock? || pc.FlushClear?
  }

  lemma WrittenBefore(c: Config, a: Action, c': Config, t: nat)
    requires IsStep(c, a, c') && InFlush(At(c, t)) && PastWrite(At(c', t))
    ensures PastWrite(At(c, t)) || (a == Advance(t) && At(c, t).FlushWrite?)
  {
    StepPcs(c, a, c');
  }

  lemma FrozenBefore(c: Config, a: Action, c': Config, t: nat)
    requires IsStep(c, a, c') && InFlush(At(c, t)) && At(c', t).FlushWrite?
    ensures At(c, t).FlushWrite? || (a == Advance(t) && At(c, t).FlushHeld? && c.world.store.buffer != map[])
  {
    StepPcs(c, a, c');
  }

  lemma {:induction false} WriteStep(run: seq<Config>, acts: seq<Action>, t: nat, call: nat, end: nat, j: nat)
    returns (write: nat)
    requires IsCall(run, acts, t, FlushReq, call, end) && call < j < end && PastWrite(At(run[j], t))
    ensures call < write < j && acts[write] == Advance(t) && At(run[write], t).FlushWrite?
    decreases j
  {
    GoRuns.FlushStarts(run, acts, t, call);
    CallServes(run, acts, t, FlushReq, call, end, j - 1);
    assert StepAt(run, acts, j - 1);
    WrittenBefore(run[j - 1], acts[j - 1], run[j], t);
    if PastWrite(At(run[j - 1], t)) {
      write := WriteStep(run, acts, t, call, end, j - 1);
    } else {
      write := j - 1;
    }
  }

  lemma {:induction false} FreezeStep(run: seq<Config>, acts: seq<Action>, t: nat, call: nat, end: nat, j: nat)
    returns (freeze: nat)
    requires IsCall(run, acts, t, FlushReq, call, end) && call < j < end && At(run[j], t).FlushWrite?
    ensures call < freeze < j && acts[freeze] == Advance(t) && At(run[freeze], t).FlushHeld?
    ensures run[freeze].world.store.buffer != map[]
    decreases j
  {
    GoRuns.FlushStarts(run, acts, t, call);
    CallServes(run, acts, t, FlushReq, call, end, j - 1);
    assert StepAt(run, acts, j - 1);
    FrozenBefore(run[j - 1], acts[j - 1], run[j], t);
    if At(run[j - 1], t).FlushWrite? {
      freeze := FreezeStep(run, acts, t, call, end, j - 1);
    } else {
      freeze := j - 1;
    }
  }

  ghost predicate ShowsAt(run: seq<Config>, acts: seq<Action>, i: nat, shown: seq<SpecAction>) {
    && i < |acts| && i < |run|
    && Readable(run[i].world.store) && Enabled(run[i], acts[i]) && Shows(run[i], acts[i]) == shown
  }

  lemma LastFlushStep(c: Config, a: Action, c': Config, t: nat)
    requires IsStep(c, a, c') && a.t == t && InFlush(At(c, t)) && At(c', t) == Returned(FlushOk)
    ensures a == Advance(t) && (At(c, t).FlushClear? || (At(c, t).FlushHeld? && c.world.store.buffer == map[]))
  {
  }

  /** And each Flush that returns nil appears within its call as one whole flush of the specification:
      its three steps at once on the early return, or one after the other. */
  lemma FlushIsShown(run: seq<Config>, acts: seq<Action>, t: nat, call: nat, end: nat)
    returns (freeze: nat, write: nat)
    requires IsCall(run, acts, t, FlushReq, call, end) && At(run[end], t).result == FlushOk
    ensures call < freeze <= write < end
    ensures if freeze == end - 1 then ShowsAt(run, acts, end - 1, [SFreeze, SWrite, SClear])
            else && freeze < write < end - 1
                 && ShowsAt(run, acts, freeze, [SFreeze])
                 && ShowsAt(run, acts, write, [SWrite])
                 && ShowsAt(run, acts, end - 1, [SClear])
  {
    LastStep(run, acts, t, FlushReq, call, end);
    LastFlushStep(run[end - 1], acts[end - 1], run[end], t);
    if At(run[end - 1], t).FlushHeld? {
      freeze, write := end - 1, end - 1;
    } else {
      write := WriteStep(run, acts, t, call, end, end - 1);
      freeze := FreezeStep(run, acts, t, call, end, write);
      assert StepAt(run, acts, write) && StepAt(run, acts, freeze);
    }
  }
}
