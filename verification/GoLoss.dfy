/** A run in which a failed segment write loses data: the caller is told about the failure, and
    the next flush, of another key, drops the unwritten frozen buffer. */
module GoLoss {
  import opened Options
  import opened KeyValue
  import opened GoStore
  import opened GoHistory
  import opened GoProtocol

  ghost function Steps(c: Config, acts: seq<Action>): Option<Config>
    decreases acts
  {
    if acts == [] then Some(c)
    else if Enabled(c, acts[0]) && Readable(c.world.store) then Steps(Do(c, acts[0]), acts[1..])
    else None
  }

  /** Steps that succeed from an initial state are a run. */
  lemma {:induction false} StepsAreRun(c: Config, acts: seq<Action>) returns (run: seq<Config>)
    requires Steps(c, acts).Some?
    ensures |run| == |acts| + 1 && run[0] == c && Steps(c, acts) == Some(run[|acts|])
    ensures forall j | 0 <= j < |acts| :: StepAt(run, acts, j)
    decreases acts
  {
    if acts == [] {
      return [c];
    }
    var rest := StepsAreRun(Do(c, acts[0]), acts[1..]);
    run := [c] + rest;
    forall j | 0 <= j < |acts| ensures StepAt(run, acts, j) {
      if j > 0 {
        assert StepAt(rest, acts[1..], j - 1);
      }
    }
  }

  lemma Then(c: Config, a: Action, rest: seq<Action>)
    requires Enabled(c, a) && Readable(c.world.store)
    ensures Steps(c, [a] + rest) == Steps(Do(c, a), rest)
  {
    assert ([a] + rest)[1..] == rest;
  }

  function Solo(w: World, pc: PC): Config {
    Config(w, [pc], None, None)
  }

  lemma PutAlone(w: World, pc: PC, k: Key, e: Entry, rest: seq<Action>)
    requires Readable(w.store) && Free(pc)
    ensures Steps(Solo(w, pc), [Invoke(0, PutReq(k, e)), Advance(0), Advance(0)] + rest)
            == Steps(Solo(Accept(w, k, e), Returned(PutOk)), rest)
  {
    var c := Solo(w, pc);
    var a1, a2 := [Advance(0)] + rest, [Advance(0)] + ([Advance(0)] + rest);
    assert [Invoke(0, PutReq(k, e)), Advance(0), Advance(0)] + rest == [Invoke(0, PutReq(k, e))] + a2;
    Then(c, Invoke(0, PutReq(k, e)), a2);
    var c1 := Do(c, Invoke(0, PutReq(k, e)));
    Then(c1, Advance(0), a1);
    var c2 := Do(c1, Advance(0));
    Then(c2, Advance(0), rest);
    assert Do(c2, Advance(0)) == Solo(Accept(w, k, e), Returned(PutOk));
  }

  /** One client calls a flush and takes both locks. */
  lemma FlushLocks(w: World, pc: PC, rest: seq<Action>)
    requires Readable(w.store) && Free(pc)
    ensures Steps(Solo(w, pc), [Invoke(0, FlushReq), Advance(0), Advance(0)] + rest)
            == Steps(Config(w, [FlushHeld], Some(0), Some(0)), rest)
  {
    var c := Solo(w, pc);
    var a1 := [Advance(0)] + rest;
    var a2 := [Advance(0)] + a1;
    assert [Invoke(0, FlushReq), Advance(0), Advance(0)] + rest == [Invoke(0, FlushReq)] + a2;
    Then(c, Invoke(0, FlushReq), a2);
    var c1 := Do(c, Invoke(0, FlushReq));
    Then(c1, Advance(0), a1);
    var c2 := Do(c1, Advance(0));
    Then(c2, Advance(0), rest);
    assert Do(c2, Advance(0)) == Config(w, [FlushHeld], Some(0), Some(0));
  }

  /** It flushes up to the write of its segment. */
  lemma FlushAlone(w: World, pc: PC, rest: seq<Action>)
    requires Readable(w.store) && Free(pc) && w.store.buffer != map[]
    ensures Steps(Solo(w, pc), [Invoke(0, FlushReq), Advance(0), Advance(0), Advance(0)] + rest)
            == Steps(Writing(w), rest)
  {
    var held := Config(w, [FlushHeld], Some(0), Some(0));
    var last := [Advance(0)] + rest;
    assert [Invoke(0, FlushReq), Advance(0), Advance(0), Advance(0)] + rest
        == [Invoke(0, FlushReq), Advance(0), Advance(0)] + last;
    FlushLocks(w, pc, last);
    Then(held, Advance(0), rest);
    assert Do(held, Advance(0)) == Writing(w);
  }

  function Writing(w: World): Config {
    Config(FreezeWorld(w), [FlushWrite(w.store.flushID + 1, TagAll(w.store.buffer))], None, Some(0))
  }

  /** One client flushes an empty buffer. */
  lemma EmptyFlushAlone(w: World, pc: PC)
    requires Readable(w.store) && Free(pc) && w.store.buffer == map[]
    ensures Steps(Solo(w, pc), [Invoke(0, FlushReq), Advance(0), Advance(0), Advance(0)])
            == Some(Solo(w, Returned(FlushOk)))
  {
    var held := Config(w, [FlushHeld], Some(0), Some(0));
    var last := [Advance(0)] + [];
    assert [Invoke(0, FlushReq), Advance(0), Advance(0), Advance(0)]
        == [Invoke(0, FlushReq), Advance(0), Advance(0)] + last;
    FlushLocks(w, pc, last);
    Then(held, Advance(0), []);
    assert Do(held, Advance(0)) == Solo(w, Returned(FlushOk));
  }

  /** What the first put and the failed write of its segment leave behind. */
  function Failed(k: Key, v: Value): World {
    Fail(FreezeWorld(Accept(EMPTY_WORLD, k, Some(v))), 1)
  }

  lemma PutFlushFail(k: Key, v: Value, rest: seq<Action>)
    ensures Readable(Failed(k, v).store) && Failed(k, v).store.buffer == map[]
    ensures Steps(Initial(1), [Invoke(0, PutReq(k, Some(v))), Advance(0), Advance(0)]
                              + ([Invoke(0, FlushReq), Advance(0), Advance(0), Advance(0)]
                                 + ([WriteFails(0, false)] + rest)))
            == Steps(Solo(Failed(k, v), Returned(FlushErr)), rest)
  {
    var put := Accept(EMPTY_WORLD, k, Some(v));
    var a2 := [WriteFails(0, false)] + rest;
    assert Initial(1) == Solo(EMPTY_WORLD, Ready);
    PutAlone(EMPTY_WORLD, Ready, k, Some(v), [Invoke(0, FlushReq), Advance(0), Advance(0), Advance(0)] + a2);
    assert k in put.store.buffer;
    FlushAlone(put, Returned(PutOk), a2);
    Then(Writing(put), WriteFails(0, false), rest);
    assert Do(Writing(put), WriteFails(0, false)) == Solo(Failed(k, v), Returned(FlushErr));
  }

  /** After a put of `k`, a failed flush, a put of another key and the freeze of a second flush,
      `k` reads as not found although its last put is `v`. */
  lemma FailureThenFreezeLosesData(k: Key, v: Value, other: Key, u: Value)
    returns (run: seq<Config>, acts: seq<Action>)
    requires other != k
    ensures IsRun(run, acts) && Readable(run[|acts|].world.store)
    ensures LastPut(run[|acts|].world.history, k) == Some(v)
    ensures AtomicGet(run[|acts|].world.store, k, Memory) == None
  {
    var flush := [Invoke(0, FlushReq), Advance(0), Advance(0), Advance(0)];
    var a4 := flush + [];
    var a3 := [Invoke(0, PutReq(other, Some(u))), Advance(0), Advance(0)] + a4;
    acts := [Invoke(0, PutReq(k, Some(v))), Advance(0), Advance(0)] + (flush + ([WriteFails(0, false)] + a3));
    PutFlushFail(k, v, a3);
    var again := Accept(Failed(k, v), other, Some(u));
    PutAlone(Failed(k, v), Returned(FlushErr), other, Some(u), a4);
    assert other in again.store.buffer;
    FlushAlone(again, Returned(PutOk), []);
    run := StepsAreRun(Initial(1), acts);
    assert run[|acts|] == Writing(again);
    LostData(k, v, other, u);
  }

  lemma LostData(k: Key, v: Value, other: Key, u: Value)
    requires other != k
    ensures var w := FreezeWorld(Accept(Failed(k, v), other, Some(u)));
            && Readable(w.store)
            && LastPut(w.history, k) == Some(v) && AtomicGet(w.store, k, Memory) == None
  {
    var w := FreezeWorld(Accept(Failed(k, v), other, Some(u)));
    assert w.store.frozen.value.Keys == {other};
    assert Scan(w.store.bucket, 2, k) == Scan(w.store.bucket, 1, k) == None;
    assert w.history == [Op(k, Some(v)), Op(other, Some(u))];
    assert w.history[..1] == [Op(k, Some(v))];
  }

  /** A flush whose write fails is not retried: the next flush finds the buffer empty, returns nil,
      and the value put before both is in no segment. */
  lemma FlushAfterFailureIsNotDurable(k: Key, v: Value) returns (run: seq<Config>, acts: seq<Action>)
    ensures IsRun(run, acts) && Readable(run[|acts|].world.store)
    ensures run[|acts|].pcs == [Returned(FlushOk)]
    ensures LastPut(run[|acts|].world.history, k) == Some(v)
    ensures AtomicGet(run[|acts|].world.store, k, Remote) == None
  {
    var flush := [Invoke(0, FlushReq), Advance(0), Advance(0), Advance(0)];
    acts := [Invoke(0, PutReq(k, Some(v))), Advance(0), Advance(0)] + (flush + ([WriteFails(0, false)] + flush));
    PutFlushFail(k, v, flush);
    EmptyFlushAlone(Failed(k, v), Returned(FlushErr));
    run := StepsAreRun(Initial(1), acts);
    var s := Failed(k, v).store;
    assert Scan(s.bucket, 1, k) == Scan(s.bucket, 0, k) == None;
    assert Failed(k, v).history == [Op(k, Some(v))];
  }
}
