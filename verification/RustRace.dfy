/** The race of the shipped form: a dirty get that overlaps the write of a taken segment misses
    a value that was there before the call and never changed. */
module RustRace {
  import opened Options
  import opened KeyValue
  import opened RustStore
  import opened RustHistory
  import opened RustProtocol
  import opened RustCalls

  /** Two tasks; in all that follows nobody holds `buf` between the steps that matter. */
  function Two(form: Form, w: World, a: PC, b: PC, gate: Option<nat>, bufGuard: Option<nat>): Config {
    Config(form, w, [a, b], gate, bufGuard)
  }

  lemma RunsJoin(first: seq<Config>, acts1: seq<Action>, second: seq<Config>, acts2: seq<Action>)
    requires |first| == |acts1| + 1 && |second| == |acts2| + 1 && first[|acts1|] == second[0]
    requires forall j | 0 <= j < |acts1| :: StepAt(first, acts1, j)
    requires forall j | 0 <= j < |acts2| :: StepAt(second, acts2, j)
    ensures var run, acts := first + second[1..], acts1 + acts2;
            && |run| == |acts| + 1
            && (forall j | 0 <= j < |acts| :: StepAt(run, acts, j))
            && (forall j | 0 <= j < |first| :: run[j] == first[j])
            && (forall j | 0 <= j < |second| :: run[|acts1| + j] == second[j])
  {
    var run, acts, n := first + second[1..], acts1 + acts2, |acts1|;
    forall j | 0 <= j < |acts| ensures StepAt(run, acts, j) {
      if j < n {
        assert StepAt(first, acts1, j);
      } else {
        assert StepAt(second, acts2, j - n);
      }
    }
  }

  function Sent(form: Form, w: World, k: Key, v: Value, id: nat): World {
    HandOver(FreezeWorld(Accept(w, k, Some(v))), form, id)
  }

  lemma Puts(form: Form, w: World, pc: PC, k: Key, v: Value) returns (run: seq<Config>, acts: seq<Action>)
    requires Free(pc)
    ensures |acts| == 2 && |run| == 3 && run[0] == Two(form, w, pc, Ready, None, None)
    ensures forall j | 0 <= j < |acts| :: StepAt(run, acts, j)
    ensures run[2] == Two(form, Accept(w, k, Some(v)), Returned(PutOk), Ready, None, None)
  {
    acts := [Invoke(0, PutReq(k, Some(v))), Advance(0)];
    run := [
      Two(form, w, pc, Ready, None, None),
      Two(form, w, PutWait(k, Some(v)), Ready, None, None),
      Two(form, Accept(w, k, Some(v)), Returned(PutOk), Ready, None, None)
    ];
  }

  lemma Sends(form: Form, w: World, pc: PC, id: nat) returns (run: seq<Config>, acts: seq<Action>)
    requires Free(pc) && id >= w.nextId && w.store.buf != map[]
    ensures |acts| == 5 && |run| == 6 && run[0] == Two(form, w, pc, Ready, None, None)
    ensures forall j | 0 <= j < |acts| :: StepAt(run, acts, j)
    ensures run[5] == Two(form, HandOver(FreezeWorld(w), form, id), Writing, Ready, Some(0), None)
  {
    acts := [Invoke(0, FlushReq), Advance(0), Advance(0), Advance(0), Name(0, id)];
    run := [
      Two(form, w, pc, Ready, None, None),
      Two(form, w, FlushWait, Ready, None, None),
      Two(form, w, FreezeWait, Ready, Some(0), None),
      Two(form, w, FreezeHeld, Ready, Some(0), Some(0)),
      Two(form, FreezeWorld(w), WriteStart, Ready, Some(0), None),
      Two(form, HandOver(FreezeWorld(w), form, id), Writing, Ready, Some(0), None)
    ];
  }

  /** Task 0 puts and then flushes up to the put of its segment. */
  lemma PutsAndSends(form: Form, w: World, pc: PC, k: Key, v: Value, id: nat)
    returns (run: seq<Config>, acts: seq<Action>)
    requires Free(pc) && id >= w.nextId
    ensures |run| == |acts| + 1 && run[0] == Two(form, w, pc, Ready, None, None)
    ensures forall j | 0 <= j < |acts| :: StepAt(run, acts, j)
    ensures run[|acts|] == Two(form, Sent(form, w, k, v, id), Writing, Ready, Some(0), None)
  {
    var put, acts1 := Puts(form, w, pc, k, v);
    assert k in Accept(w, k, Some(v)).store.buf;
    var send, acts2 := Sends(form, Accept(w, k, Some(v)), Returned(PutOk), id);
    RunsJoin(put, acts1, send, acts2);
    run, acts := put + send[1..], acts1 + acts2;
  }

  /** In the shipped form, what is sent is in no layer. */
  lemma FirstSent(k: Key, v: Value)
    ensures var w := Sent(Take, EMPTY_WORLD, k, v, 0);
            w.history == [Op(k, Some(v))] && w.failures == 0 && w.flight.Some? && w.store == EMPTY_STORE
  {
    assert k in Accept(EMPTY_WORLD, k, Some(v)).store.buf;
  }

  /** The second half: task 1 reads `buf`, the frozen buffer and an empty listing. */
  lemma ReadMisses(k: Key, w: World, pc: PC, gate: Option<nat>) returns (run: seq<Config>, acts: seq<Action>)
    requires w.store == EMPTY_STORE
    ensures |acts| == 5 && |run| == 6 && run[0] == Two(Take, w, pc, Ready, gate, None)
    ensures acts[0] == Invoke(1, GetReq(k, Memory))
    ensures forall j | 0 <= j < |acts| :: StepAt(run, acts, j)
    ensures forall j | 0 <= j < |run| :: |run[j].pcs| == 2 && run[j].form == Take && run[j].world == w
    ensures run[5] == Two(Take, w, pc, Returned(Got(None)), gate, None)
    ensures forall j | 1 <= j < 5 :: !run[j].pcs[1].Returned?
  {
    acts := [Invoke(1, GetReq(k, Memory)), Advance(1), Advance(1), List(1, []), Advance(1)];
    run := [
      Two(Take, w, pc, Ready, gate, None),
      Two(Take, w, pc, GetBuf(k), gate, None),
      Two(Take, w, pc, GetFrozen(k), gate, None),
      Two(Take, w, pc, GetList(k, Memory), gate, None),
      Two(Take, w, pc, GetSegments(k, Memory, []), gate, None),
      Two(Take, w, pc, Returned(Got(None)), gate, None)
    ];
  }

  /** The read returns "not found", with no failed write, although at every moment of the call the
      last put of `k` is `v`. */
  lemma TakenSegmentIsMissed(k: Key, v: Value) returns (run: seq<Config>, acts: seq<Action>, call: nat, end: nat)
    ensures IsCall(run, acts, 1, GetReq(k, Memory), call, end) && run[0].form == Take
    ensures At(run[end], 1).result == Got(None)
    ensures forall i | call <= i <= end ::
              run[i].world.failures == 0 && LastPut(run[i].world.history, k) == Some(v)
  {
    var first, acts1 := PutsAndSends(Take, EMPTY_WORLD, Ready, k, v, 0);
    var w := Sent(Take, EMPTY_WORLD, k, v, 0);
    FirstSent(k, v);
    var second, acts2 := ReadMisses(k, w, Writing, Some(0));
    RunsJoin(first, acts1, second, acts2);
    run, acts := first + second[1..], acts1 + acts2;
    call, end := |acts1|, |acts1| + 5;
    forall i | call <= i <= end ensures run[i] == second[i - |acts1|] {
    }
  }

  /** After the failed put of the taken segment task 0 flushes again, and is told that all is well. */
  lemma FlushFails(w: World) returns (run: seq<Config>, acts: seq<Action>, lost: World)
    requires w.flight.Some? && w.store == EMPTY_STORE
    ensures |run| == |acts| + 1 && run[0] == Two(Take, w, Writing, Ready, Some(0), None)
    ensures forall j | 0 <= j < |acts| :: StepAt(run, acts, j)
    ensures run[|acts|] == Two(Take, lost, Returned(FlushOk), Ready, None, None) && lost == FailWorld(w, false)
  {
    lost := FailWorld(w, false);
    acts := [PutFails(0, false), Invoke(0, FlushReq), Advance(0), Advance(0), Advance(0), Advance(0), Advance(0)];
    run := [
      Two(Take, w, Writing, Ready, Some(0), None),
      Two(Take, lost, Returned(FlushErr), Ready, None, None),
      Two(Take, lost, FlushWait, Ready, None, None),
      Two(Take, lost, FreezeWait, Ready, Some(0), None),
      Two(Take, lost, FreezeHeld, Ready, Some(0), Some(0)),
      Two(Take, lost, WriteStart, Ready, Some(0), None),
      Two(Take, lost, ClearStart, Ready, Some(0), None),
      Two(Take, lost, Returned(FlushOk), Ready, None, None)
    ];
  }

  /** In the shipped form a failed put loses its content for good: the value put before it is in no
      layer, the next flush returns Ok, and a dirty get returns "not found". */
  lemma FailedPutLosesValue(k: Key, v: Value) returns (run: seq<Config>, acts: seq<Action>)
    ensures IsRun(run, acts) && run[0].form == Take
    ensures run[|acts|].pcs == [Returned(FlushOk), Returned(Got(None))]
    ensures |acts| > 5 && IsCall(run, acts, 1, GetReq(k, Memory), |acts| - 5, |acts|)
    ensures LastPut(run[|acts|].world.history, k) == Some(v) && Read(MemoryView(run[|acts|].world), k) == None
  {
    var first, acts1 := PutsAndSends(Take, EMPTY_WORLD, Ready, k, v, 0);
    var w := Sent(Take, EMPTY_WORLD, k, v, 0);
    FirstSent(k, v);
    var second, acts2, lost := FlushFails(w);
    RunsJoin(first, acts1, second, acts2);
    var third, acts3 := ReadMisses(k, lost, Returned(FlushOk), None);
    RunsJoin(first + second[1..], acts1 + acts2, third, acts3);
    run, acts := first + second[1..] + third[1..], acts1 + acts2 + acts3;
    assert run[|acts|] == third[5];
    NoObjects(lost.nextId);
  }

  lemma {:induction false} NoObjects(n: nat)
    ensures Overlay(map[], n) == map[]
  {
    if n == 0 {
    } else {
      NoObjects(n - 1);
    }
  }

  /** Where a put that fails, another put and the flush that follows leave the two keys. */
  lemma LeftBehind(k: Key, v: Value, other: Key, u: Value)
    requires other != k
    ensures var again := Sent(Clone, FailWorld(Sent(Clone, EMPTY_WORLD, k, v, 0), false), other, u, 1);
            && again.flight == Some(Segment(1, map[k := Some(v)]))
            && again.history == [Op(k, Some(v)), Op(other, Some(u))]
            && other !in Stored(ClearWorld(LandWorld(again)))
  {
    var one := map[k := Some(v)];
    var sent := Sent(Clone, EMPTY_WORLD, k, v, 0);
    assert Accept(EMPTY_WORLD, k, Some(v)).store.buf == one;
    assert k in one && sent.store.imm == one;
    var again := Sent(Clone, FailWorld(sent, false), other, u, 1);
    assert again.store.imm == one && again.nextId == 2;
    NoObjects(1);
    OverlayLands(map[], 1, one);
  }

  /** In the clone form the flush after a failed one stores what that one left frozen and returns
      Ok; what was put in between is still in `buf` only. */
  lemma CloneFlushLeavesBuffer(k: Key, v: Value, other: Key, u: Value) returns (run: seq<Config>, acts: seq<Action>)
    requires other != k
    ensures IsRun(run, acts) && run[0].form == Clone && run[|acts|].pcs == [Returned(FlushOk), Ready]
    ensures LastPut(run[|acts|].world.history, other) == Some(u) && Read(Stored(run[|acts|].world), other) == None
  {
    var first, acts1 := PutsAndSends(Clone, EMPTY_WORLD, Ready, k, v, 0);
    var sent := Sent(Clone, EMPTY_WORLD, k, v, 0);
    var failed := FailWorld(sent, false);
    var fail := [Two(Clone, sent, Writing, Ready, Some(0), None),
                 Two(Clone, failed, Returned(FlushErr), Ready, None, None)];
    var acts2 := [PutFails(0, false)];
    assert StepAt(fail, acts2, 0);
    RunsJoin(first, acts1, fail, acts2);
    var second, acts3 := PutsAndSends(Clone, failed, Returned(FlushErr), other, u, 1);
    RunsJoin(first + fail[1..], acts1 + acts2, second, acts3);
    LeftBehind(k, v, other, u);
    var last, acts4 := Lands(Sent(Clone, failed, other, u, 1));
    RunsJoin(first + fail[1..] + second[1..], acts1 + acts2 + acts3, last, acts4);
    run := first + fail[1..] + second[1..] + last[1..];
    acts := acts1 + acts2 + acts3 + acts4;
    assert run[|acts|] == last[2];
  }

  lemma Lands(w: World) returns (run: seq<Config>, acts: seq<Action>)
    requires w.flight.Some?
    ensures |acts| == 2 && |run| == 3 && run[0] == Two(Clone, w, Writing, Ready, Some(0), None)
    ensures forall j | 0 <= j < |acts| :: StepAt(run, acts, j)
    ensures run[2] == Two(Clone, ClearWorld(LandWorld(w)), Returned(FlushOk), Ready, None, None)
  {
    acts := [Advance(0), Advance(0)];
    run := [Two(Clone, w, Writing, Ready, Some(0), None), Two(Clone, LandWorld(w), ClearStart, Ready, Some(0), None),
            Two(Clone, ClearWorld(LandWorld(w)), Returned(FlushOk), Ready, None, None)];
  }
}
