/** Theorems over whole runs of the Go store: reads, their linearization, and durability. */
module GoRuns {
  import opened Options
  import opened KeyValue
  import opened BlobNames
  import opened GoStore
  import opened Epochs
  import opened GoHistory
  import opened GoReads
  import opened GoCalls
  import opened GoProtocol

  // ----- What a run only adds to -----

  ghost predicate Grows(w: World, w': World) {
    && w.history <= w'.history
    && w.marks <= w'.marks
    && w.failures <= w'.failures
    && (forall i: nat :: Written(w.store.bucket, i) ==> Written(w'.store.bucket, i))
  }

  lemma StepGrows(c: Config, a: Action, c': Config)
    requires IsStep(c, a, c')
    ensures Grows(c.world, c'.world)
  {
  }

  /** The history, the freeze points and the stored segments only ever grow. */
  lemma {:induction false} RunGrows(run: seq<Config>, acts: seq<Action>, i: nat, j: nat)
    requires IsRun(run, acts) && i <= j < |run|
    ensures Grows(run[i].world, run[j].world)
    decreases j
  {
    if i == j {
    } else {
      RunGrows(run, acts, i, j - 1);
      assert Grows(run[j - 1].world, run[j].world) by {
        assert StepAt(run, acts, j - 1);
        StepGrows(run[j - 1], acts[j - 1], run[j]);
      }
    }
  }

  lemma RunWorldOk(run: seq<Config>, acts: seq<Action>, j: nat)
    requires IsRun(run, acts) && j < |run|
    ensures WorldOk(run[j].world) && Readable(run[j].world.store) && |run[j].pcs| == |run[0].pcs|
  {
    RunKeepsInv(run, acts, j);
  }

  /** What the invariant says about one thread `t` and, through the locks, about another one. */
  ghost predicate ThreadFacts(c: Config, t: nat, q: nat) {
    && t < |c.pcs| && q < |c.pcs|
    && Readable(c.world.store)
    && ThreadOk(c.world, c.pcs[t]) && ThreadOk(c.world, c.pcs[q])
    && (q != t && HoldsMu(c.pcs[t]) ==> !HoldsMu(c.pcs[q]))
    && (q != t && HoldsFlushMutex(c.pcs[t]) ==> !HoldsFlushMutex(c.pcs[q]))
  }

  lemma RunThreadFacts(run: seq<Config>, acts: seq<Action>, j: nat, t: nat, q: nat)
    requires IsRun(run, acts) && j < |run| && t < |run[j].pcs| && q < |run[j].pcs|
    ensures ThreadFacts(run[j], t, q)
  {
    RunKeepsInv(run, acts, j);
    var c := run[j];
    assert HoldsMu(c.pcs[t]) <==> c.mu == Some(t);
    assert HoldsFlushMutex(c.pcs[t]) <==> c.flushMutex == Some(t);
  }

  // ----- Dirty and durable reads -----

  /** Without failed writes, in every state of every run, mid-flush or not, a Memory read of any
      key is its last put and a Remote read is a read of one prefix of the history. */
  lemma ReadsInEveryState(run: seq<Config>, acts: seq<Action>, j: nat, k: Key)
    requires IsRun(run, acts) && j < |run|
    requires run[j].world.failures == {}
    ensures WorldOk(run[j].world) && Readable(run[j].world.store)
    ensures AtomicGet(run[j].world.store, k, Memory) == LastPut(run[j].world.history, k)
    ensures DurablePoint(run[j].world) <= |run[j].world.history|
    ensures AtomicGet(run[j].world.store, k, Remote)
            == LastPut(run[j].world.history[..DurablePoint(run[j].world)], k)
  {
    RunWorldOk(run, acts, j);
    NoFailuresNoLoss(run[j].world);
    MemoryReadIsLastPut(run[j].world, k);
    RemoteReadIsPrefix(run[j].world, k);
  }

  lemma NoFailuresNoLoss(w: World)
    requires WorldOk(w) && w.failures == {}
    ensures Superseded(w) == {}
  {
    assert forall i | 1 <= i < w.store.flushID :: Written(w.store.bucket, i);
  }

  lemma DurablePointGrows(w: World, w': World)
    requires |w.marks| == w.store.flushID && |w'.marks| == w'.store.flushID && MarksOk(w'.history, w'.marks)
    requires Grows(w, w')
    ensures DurablePoint(w) <= DurablePoint(w')
  {
    var m := NewestWritten(w.store.bucket, w.store.flushID);
    var m' := NewestWritten(w'.store.bucket, w'.store.flushID);
    assert m > 0 ==> Written(w'.store.bucket, m);
    assert m <= m';
    assert Mark(w'.marks, m) == Mark(w.marks, m);
  }

  /** The prefix that Remote reads see never moves backwards, whatever fails. */
  lemma DurablePointIsMonotone(run: seq<Config>, acts: seq<Action>, i: nat, j: nat)
    requires IsRun(run, acts) && i <= j < |run|
    ensures WorldOk(run[i].world) && WorldOk(run[j].world)
    ensures DurablePoint(run[i].world) <= DurablePoint(run[j].world)
    ensures run[i].world.history <= run[j].world.history
  {
    RunWorldOk(run, acts, i);
    RunWorldOk(run, acts, j);
    RunGrows(run, acts, i, j);
    DurablePointGrows(run[i].world, run[j].world);
  }

  predicate Freezes(c: Config, a: Action) {
    && a.Advance? && a.t < |c.pcs| && c.pcs[a.t].FlushHeld?
    && c.world.store.buffer != map[]
  }

  /** Only a freeze can supersede an unwritten segment, and it can supersede only the newest. */
  lemma OnlyFreezesSupersede(c: Config, a: Action, c': Config)
    requires Inv(c) && IsStep(c, a, c')
    ensures Superseded(c'.world) == if Freezes(c, a) then Unwritten(c.world) else Superseded(c.world)
  {
    var w, w' := c.world, c'.world;
    assert ThreadOk(w, c.pcs[a.t]);
    SegmentsMove(c, a, c');
    if Freezes(c, a) {
      FreezeSupersedesUnwritten(w);
    } else if w'.store.bucket != w.store.bucket {
      LandSupersedesNothing(w);
    }
  }

  /** How a step changes the segments and their counter. */
  lemma SegmentsMove(c: Config, a: Action, c': Config)
    requires IsStep(c, a, c') && ThreadOk(c.world, c.pcs[a.t])
    ensures Freezes(c, a) ==> c'.world == FreezeWorld(c.world)
    ensures !Freezes(c, a) ==>
              && c'.world.store.flushID == c.world.store.flushID
              && (c'.world.store.bucket == c.world.store.bucket
                  || (c.world.store.frozen.Some? && !Written(c.world.store.bucket, c.world.store.flushID)
                      && c'.world.store.bucket
                         == Land(c.world, c.world.store.flushID, c.world.store.frozen.value).store.bucket))
  {
  }

  lemma LandSupersedesNothing(w: World)
    requires WorldOk(w) && w.store.frozen.Some?
    ensures Superseded(Land(w, w.store.flushID, w.store.frozen.value)) == Superseded(w)
  {
    LandOk(w);
  }

  lemma FreezeSupersedesUnwritten(w: World)
    requires WorldOk(w)
    ensures Superseded(FreezeWorld(w)) == Unwritten(w)
  {
  }

  /** No stored segment is ever overwritten or removed: names are injective and ids increase. */
  lemma SegmentsAreWrittenOnce(c: Config, a: Action, c': Config, name: string)
    requires Inv(c) && IsStep(c, a, c') && name in c.world.store.bucket
    ensures name in c'.world.store.bucket && c'.world.store.bucket[name] == c.world.store.bucket[name]
  {
    assert ThreadOk(c.world, c.pcs[a.t]);
    SegmentsMove(c, a, c');
  }

  // ----- Linearizability of Get -----

  lemma {:induction false} ScanIgnores(bucket: Bucket, id: nat, data: Blob, i: nat, k: Key)
    requires BucketReadable(bucket) && WellTagged(data)
    requires i < id
    ensures Scan(bucket[BlobKey(id) := data], i, k) == Scan(bucket, i, k)
  {
    if i == 0 {
    } else {
      BlobKeyInjective(id, i);
      ScanIgnores(bucket, id, data, i - 1, k);
    }
  }

  /** The step by which a Get decides its answer: its look at the buffers, when that ends it, or
      else its read of the newest segment. */
  ghost predicate ReadsNewest(c: Config, t: nat) {
    At(c, t).GetHeld? || (At(c, t).GetScan? && At(c, t).i == c.world.store.flushID)
  }

  /** While a Get scans below the newest segment, nothing changes what it will find. */
  ghost predicate ScanKept(c: Config, a: Action, c': Config, t: nat, k: Key) {
    && Readable(c.world.store) && Readable(c'.world.store)
    && At(c, t).GetScan? && At(c', t).GetScan?
    && Scan(c'.world.store.bucket, At(c', t).i, k) == Scan(c.world.store.bucket, At(c, t).i, k)
    && (ReadsNewest(c, t) ==> a == Advance(t))
  }

  lemma ScanStep(c: Config, a: Action, c': Config, t: nat, k: Key, d: Durability)
    requires IsStep(c, a, c') && ThreadFacts(c, t, a.t) && Readable(c'.world.store)
    requires InGet(At(c, t), k, d) && InGet(At(c', t), k, d) && At(c', t).GetScan?
    requires At(c', t).i < c'.world.store.flushID
    ensures ScanKept(c, a, c', t, k)
  {
    var pc := c.pcs[a.t];
    if a.t != t && pc.FlushWrite? {
      ScanIgnores(c.world.store.bucket, pc.id, pc.data, At(c, t).i, k);
    }
  }

  lemma AtNewest(c: Config, t: nat, k: Key, d: Durability)
    requires ThreadOk(c.world, At(c, t)) && Readable(c.world.store)
    requires InGet(At(c, t), k, d) && At(c, t).GetScan? && At(c, t).i == c.world.store.flushID
    ensures AtomicGet(c.world.store, k, d) == Scan(c.world.store.bucket, At(c, t).i, k)
  {
  }

  lemma RunScanStep(run: seq<Config>, acts: seq<Action>, j: nat, t: nat, k: Key, d: Durability)
    requires IsRun(run, acts) && 0 < j < |run|
    requires InGet(At(run[j - 1], t), k, d) && InGet(At(run[j], t), k, d) && At(run[j], t).GetScan?
    ensures Readable(run[j].world.store)
    ensures !ScanKept(run[j - 1], acts[j - 1], run[j], t, k) ==>
              && ReadsNewest(run[j], t)
              && AtomicGet(run[j].world.store, k, d) == Scan(run[j].world.store.bucket, At(run[j], t).i, k)
  {
    RunThreadFacts(run, acts, j, t, t);
    if At(run[j], t).i == run[j].world.store.flushID {
      AtNewest(run[j], t, k, d);
    } else {
      assert StepAt(run, acts, j - 1);
      RunThreadFacts(run, acts, j - 1, t, acts[j - 1].t);
      ScanStep(run[j - 1], acts[j - 1], run[j], t, k, d);
    }
  }

  lemma {:induction false} ScanTracksAnAnswer(
    run: seq<Config>, acts: seq<Action>, t: nat, k: Key, d: Durability, start: nat, j: nat) returns (m: nat)
    requires IsRun(run, acts) && start < j < |run|
    requires At(run[start], t).GetHeld?
    requires forall i | start <= i <= j :: InGet(At(run[i], t), k, d)
    requires At(run[j], t).GetScan?
    ensures start <= m <= j
    ensures Readable(run[m].world.store) && Readable(run[j].world.store)
    ensures AtomicGet(run[m].world.store, k, d) == Scan(run[j].world.store.bucket, At(run[j], t).i, k)
    ensures ReadsNewest(run[m], t) && At(run[m], t).GetScan? && (m < j ==> acts[m] == Advance(t))
  {
    RunScanStep(run, acts, j, t, k, d);
    if ScanKept(run[j - 1], acts[j - 1], run[j], t, k) {
      m := ScanTracksAnAnswer(run, acts, t, k, d, start, j - 1);
    } else {
      m := j;
    }
  }

  /** A Get ends either by what it finds in the buffers or by what its scan finds. */
  lemma LookEnds(c: Config, t: nat, k: Key, d: Durability)
    requires t < |c.pcs| && Readable(c.world.store)
    ensures At(LookAtBuffers(c, t, k, d), t).Returned? ==>
              At(LookAtBuffers(c, t, k, d), t).result == Got(AtomicGet(c.world.store, k, d))
  {
  }

  lemma ScanEnds(c: Config, t: nat, k: Key, d: Durability, i: nat)
    requires t < |c.pcs| && Readable(c.world.store)
    ensures At(LookAtSegment(c, t, k, d, i), t).Returned? ==>
              At(LookAtSegment(c, t, k, d, i), t).result == Got(Scan(c.world.store.bucket, i, k))
  {
  }

  lemma GetEnds(c: Config, a: Action, c': Config, t: nat, k: Key, d: Durability)
    requires IsStep(c, a, c') && InGet(At(c, t), k, d)
    requires At(c', t).Returned?
    ensures a == Advance(t)
    ensures At(c', t).result == Got(if At(c, t).GetHeld? then AtomicGet(c.world.store, k, d)
                                    else Scan(c.world.store.bucket, At(c, t).i, k))
  {
    StepPcs(c, a, c');
    assert a.t == t && a == Advance(t);
    if At(c, t).GetScan? {
      ScanEnds(c, t, k, d, At(c, t).i);
    } else {
      LookEnds(c, t, k, d);
    }
  }

  /** Although a segment may land between two iterations of the loop, a Get that was asked for `k`
      at level `d` returns the answer of one atomic read of `k` at level `d`, at one moment between
      its call and its return: the step in which it finds the key in a buffer, or reads the newest
      segment. */
  lemma GetIsLinearizable(
    run: seq<Config>, acts: seq<Action>, t: nat, k: Key, d: Durability, call: nat, end: nat) returns (m: nat)
    requires IsCall(run, acts, t, GetReq(k, d), call, end)
    ensures call < m < end && Readable(run[m].world.store)
    ensures At(run[end], t).result == Got(AtomicGet(run[m].world.store, k, d))
    ensures acts[m] == Advance(t) && ReadsNewest(run[m], t) && (At(run[m], t).GetHeld? ==> m + 1 == end)
    ensures InGet(At(run[m], t), k, d)
  {
    var start := GetStretch(run, acts, t, k, d, call, end);
    var c := run[end - 1];
    assert StepAt(run, acts, end - 1);
    assert InGet(At(c, t), k, d);
    GetEnds(c, acts[end - 1], run[end], t, k, d);
    if At(c, t).GetHeld? {
      m := end - 1;
    } else {
      m := ScanTracksAnAnswer(run, acts, t, k, d, start, end - 1);
    }
  }

  /** So without failed writes a Memory Get returns the last put of the key it was asked for, and a
      Remote Get its value at a freeze point, of a moment within the call. */
  lemma GetReturnsHistoryValue(
    run: seq<Config>, acts: seq<Action>, t: nat, k: Key, d: Durability, call: nat, end: nat) returns (m: nat)
    requires IsCall(run, acts, t, GetReq(k, d), call, end)
    requires run[end].world.failures == {}
    ensures call < m < end && WorldOk(run[m].world)
    ensures var w := run[m].world;
            && DurablePoint(w) <= |w.history|
            && At(run[end], t).result
               == Got(LastPut(if d.Memory? then w.history else w.history[..DurablePoint(w)], k))
  {
    m := GetIsLinearizable(run, acts, t, k, d, call, end);
    RunGrows(run, acts, m, end);
    ReadsInEveryState(run, acts, m, k);
  }

  // ----- Durability of Flush -----

  /** What a flush that tested the buffer in `w0` has done to the segments when it stands at `pc`. */
  ghost predicate Persisted(w0: World, pc: PC, w: World) {
    var n := w0.store.flushID;
    && (pc.FlushHeld? ==> w == w0)
    && (Storing(pc) ==> w0.store.buffer != map[])
    && (pc.FlushWrite? ==> Wrote(w0, w, w0.store.bucket) && pc.id == n + 1 && pc.data == TagAll(w0.store.buffer))
    && (pc.FlushRelock? || pc.FlushClear? || (pc == Returned(FlushOk) && w0.store.buffer != map[]) ==>
          Wrote(w0, w, w0.store.bucket[BlobKey(n + 1) := TagAll(w0.store.buffer)]))
    && (pc == Returned(FlushOk) && w0.store.buffer == map[] ==> w == w0)
  }

  ghost predicate Wrote(w0: World, w: World, bucket: Bucket) {
    && w.store.flushID == w0.store.flushID + 1
    && w.marks == w0.marks + [|w0.history|]
    && w.store.bucket == bucket
    && w0.history <= w.history
  }

  predicate PastTest(pc: PC) {
    pc.FlushHeld? || Storing(pc)
  }

  lemma TestStep(w0: World, c: Config, a: Action, c': Config)
    requires IsStep(c, a, c') && c.pcs[a.t].FlushHeld? && c.world == w0
    ensures PersistedPast(w0, At(c', a.t), c'.world)
  {
  }

  lemma StoreStep(w0: World, c: Config, a: Action, c': Config)
    requires IsStep(c, a, c') && Storing(c.pcs[a.t]) && Persisted(w0, c.pcs[a.t], c.world)
    ensures PersistedPast(w0, At(c', a.t), c'.world)
  {
    if c.pcs[a.t].FlushWrite? {
    } else if c.pcs[a.t].FlushRelock? {
    } else {
    }
  }

  lemma OtherStep(w0: World, c: Config, a: Action, c': Config, t: nat)
    requires IsStep(c, a, c') && a.t != t && t < |c.pcs| && PastTest(c.pcs[t])
    requires !HoldsFlushMutex(c.pcs[a.t]) && (HoldsMu(c.pcs[t]) ==> !HoldsMu(c.pcs[a.t]))
    requires Persisted(w0, c.pcs[t], c.world)
    ensures At(c', t) == c.pcs[t] && Persisted(w0, c.pcs[t], c'.world)
  {
    StepPcs(c, a, c');
    PutOrNothing(c, a, c');
  }

  /** Without `flushMutex` a thread can only put. */
  lemma PutOrNothing(c: Config, a: Action, c': Config)
    requires IsStep(c, a, c') && !HoldsFlushMutex(c.pcs[a.t])
    ensures c'.world == if a.Advance? && c.pcs[a.t].PutHeld? then Accept(c.world, c.pcs[a.t].key, c.pcs[a.t].entry)
                        else c.world
  {
  }

  ghost predicate PersistedPast(w0: World, pc: PC, w: World) {
    Persisted(w0, pc, w) && (InFlush(pc) ==> PastTest(pc))
  }

  lemma PersistStep(w0: World, c: Config, a: Action, c': Config, t: nat)
    requires IsStep(c, a, c') && ThreadFacts(c, t, a.t)
    requires PastTest(At(c, t)) && Persisted(w0, At(c, t), c.world)
    ensures PersistedPast(w0, At(c', t), c'.world)
  {
    if a.t != t {
      OtherStep(w0, c, a, c', t);
    } else if Storing(c.pcs[t]) {
      StoreStep(w0, c, a, c');
    } else {
      TestStep(w0, c, a, c');
    }
  }

  lemma RunPersistStep(w0: World, run: seq<Config>, acts: seq<Action>, j: nat, t: nat)
    requires IsRun(run, acts) && j < |acts|
    requires PastTest(At(run[j], t)) && Persisted(w0, At(run[j], t), run[j].world)
    ensures PersistedPast(w0, At(run[j + 1], t), run[j + 1].world)
  {
    assert StepAt(run, acts, j);
    RunThreadFacts(run, acts, j, t, acts[j].t);
    PersistStep(w0, run[j], acts[j], run[j + 1], t);
  }

  /** From its test of the buffer to its return, no other thread touches what a flush freezes. */
  lemma {:induction false} FlushPersists(run: seq<Config>, acts: seq<Action>, t: nat, test: nat, j: nat)
    requires IsRun(run, acts) && test <= j < |run|
    requires At(run[test], t).FlushHeld?
    requires forall i | test <= i < j :: InFlush(At(run[i], t))
    ensures PersistedPast(run[test].world, At(run[j], t), run[j].world)
    decreases j
  {
    if j == test {
    } else {
      FlushPersists(run, acts, t, test, j - 1);
      assert InFlush(At(run[j - 1], t));
      RunPersistStep(run[test].world, run, acts, j - 1, t);
    }
  }

  lemma WroteIsUnwritten(w0: World, w: World)
    requires WorldOk(w0)
    requires Wrote(w0, w, w0.store.bucket[BlobKey(w0.store.flushID + 1) := TagAll(w0.store.buffer)])
    ensures Unwritten(w) == Unwritten(w0)
  {
    var n := w0.store.flushID;
    forall i: nat
      ensures Written(w.store.bucket, i) <==> i == n + 1 || Written(w0.store.bucket, i)
    {
      BlobKeyInjective(i, n + 1);
    }
  }

  /** What a flush has stored when it returns nil. */
  lemma ReturnedDurable(w0: World, w: World)
    requires WorldOk(w0) && WorldOk(w) && Persisted(w0, Returned(FlushOk), w)
    ensures Unwritten(w) == Unwritten(w0) && Mark(w.marks, |w.marks|) == |w0.history|
  {
    if w0.store.buffer == map[] {
      ReplayEmpty(Tail(w0.history, w0.marks));
    } else {
      WroteIsUnwritten(w0, w);
    }
  }

  lemma ReturnedOverlay(w0: World, w: World)
    requires WorldOk(w0) && WorldOk(w) && Persisted(w0, Returned(FlushOk), w)
    ensures Readable(w0.store) && Readable(w.store)
    ensures Visible(w.store, Remote) == Visible(w0.store, Remote) + w0.store.buffer
  {
    var n, data := w0.store.flushID, TagAll(w0.store.buffer);
    if w0.store.buffer == map[] {
    } else {
      OverlayLands(w0.store.bucket, n + 1, data);
    }
  }

  /** Whatever has failed: a flush that returns nil has made everything accepted before its test of
      the buffer durable if and only if no earlier segment was missing at that test. */
  lemma FlushOkIsDurableIff(run: seq<Config>, acts: seq<Action>, t: nat, call: nat, test: nat, end: nat)
    requires IsCall(run, acts, t, FlushReq, call, end) && At(run[end], t).result == FlushOk
    requires call < test < end && At(run[test], t).FlushHeld?
    ensures DurableTo(run[end].world, |run[test].world.history|) <==> Unwritten(run[test].world) == {}
  {
    RunWorldOk(run, acts, test);
    RunWorldOk(run, acts, end);
    FlushStretch(run, acts, t, call, end);
    FlushPersists(run, acts, t, test, end);
    ReturnedDurable(run[test].world, run[end].world);
    AllFrozenIsDurable(run[end].world);
  }

  /** Key by key: after a nil return a Remote read gives what a Memory read gave at the test if and
      only if the value was not in an unwritten frozen buffer alone, and gives the last put of the
      test if and only if no missing segment hides it. */
  lemma FlushOkShowsKeyIff(
    run: seq<Config>, acts: seq<Action>, t: nat, call: nat, test: nat, end: nat, k: Key)
    requires IsCall(run, acts, t, FlushReq, call, end) && At(run[end], t).result == FlushOk
    requires call < test < end && At(run[test], t).FlushHeld?
    ensures WorldOk(run[test].world) && Readable(run[test].world.store) && Readable(run[end].world.store)
    ensures AtomicGet(run[end].world.store, k, Remote) == AtomicGet(run[test].world.store, k, Memory)
            <==> !OnlyFrozenHas(run[test].world, k)
    ensures var w0 := run[test].world;
            AtomicGet(run[end].world.store, k, Remote) == LastPut(w0.history, k)
            <==> !Hidden(w0.history, w0.marks, Unwritten(w0), k)
  {
    RunWorldOk(run, acts, test);
    RunWorldOk(run, acts, end);
    FlushStretch(run, acts, t, call, end);
    FlushPersists(run, acts, t, test, end);
    var w0, w := run[test].world, run[end].world;
    ReturnedOverlay(w0, w);
    GetReadsVisible(w.store, k, Remote);
    WithoutFrozen(w0, k);
    SegmentsAndBuffer(w0, k);
    ReadsLastPutUnlessHidden(w0.history, w0.marks, Unwritten(w0), k);
  }

  lemma SegmentsAndBuffer(w: World, k: Key)
    requires WorldOk(w)
    ensures Read(Overlay(w.store.bucket, w.store.flushID) + w.store.buffer, k)
            == LastPut(Kept(w.history, w.marks, Unwritten(w), |w.marks|) + Tail(w.history, w.marks), k)
  {
    var n, tail := w.store.flushID, Tail(w.history, w.marks);
    OverlayIsKept(w, n, k);
    ReadLayered(Overlay(w.store.bucket, n), tail, k);
    LastPutConcat(Kept(w.history, w.marks, Unwritten(w), n), tail, k);
  }

  lemma DurableStaysDurable(run: seq<Config>, acts: seq<Action>, i: nat, j: nat, count: nat)
    requires IsRun(run, acts) && i <= j < |run|
    requires DurableTo(run[i].world, count)
    ensures DurableTo(run[j].world, count)
  {
    RunGrows(run, acts, i, j);
    var w, w' := run[i].world, run[j].world;
    RunWorldOk(run, acts, i);
    var m :| 0 <= m <= |w.marks| && Complete(Unwritten(w), m) && count <= Mark(w.marks, m);
    forall i | 1 <= i <= m ensures i !in Unwritten(w') {
      assert i !in Unwritten(w);
      assert Written(w.store.bucket, i);
    }
    assert Complete(Unwritten(w'), m) && Mark(w'.marks, m) == Mark(w.marks, m);
  }

  lemma FlushStepBack(c: Config, a: Action, c': Config, t: nat)
    requires IsStep(c, a, c') && InFlush(At(c, t))
    requires Storing(At(c', t)) || At(c', t) == Returned(FlushOk)
    ensures PastTest(At(c, t))
  {
    StepPcs(c, a, c');
    if c.pcs[t].FlushWait? {
      assert a.t == t ==> At(c', t) == FlushGate;
    } else if c.pcs[t].FlushGate? {
      assert a.t == t ==> At(c', t) == FlushHeld;
    }
  }

  lemma RunFlushStepBack(run: seq<Config>, acts: seq<Action>, j: nat, t: nat)
    requires IsRun(run, acts) && j < |acts| && InFlush(At(run[j], t))
    requires Storing(At(run[j + 1], t)) || At(run[j + 1], t) == Returned(FlushOk)
    ensures PastTest(At(run[j], t))
  {
    assert StepAt(run, acts, j);
    FlushStepBack(run[j], acts[j], run[j + 1], t);
  }

  /** A flush that returns nil has tested the buffer within its call. */
  lemma {:induction false} FlushTests(run: seq<Config>, acts: seq<Action>, t: nat, call: nat, j: nat)
    returns (test: nat)
    requires IsRun(run, acts) && call <= j < |run|
    requires At(run[call], t).FlushWait?
    requires forall i | call <= i < j :: InFlush(At(run[i], t))
    requires PastTest(At(run[j], t)) || At(run[j], t) == Returned(FlushOk)
    ensures call <= test <= j && At(run[test], t).FlushHeld?
    decreases j
  {
    if At(run[j], t).FlushHeld? {
      test := j;
    } else {
      assert InFlush(At(run[j - 1], t));
      RunFlushStepBack(run, acts, j - 1, t);
      test := FlushTests(run, acts, t, call, j - 1);
    }
  }

  lemma NothingMissingAtTest(c: Config, t: nat)
    requires Inv(c) && At(c, t).FlushHeld? && c.world.failures == {}
    ensures Unwritten(c.world) == {}
  {
    assert HoldsFlushMutex(c.pcs[t]);
    assert Settled(c.world);
  }

  lemma DurableToFewer(w: World, more: nat, fewer: nat)
    requires DurableTo(w, more) && fewer <= more
    ensures DurableTo(w, fewer)
  {
    var m :| 0 <= m <= |w.marks| && Complete(Unwritten(w), m) && more <= Mark(w.marks, m);
    assert fewer <= Mark(w.marks, m);
  }

  /** Every flush that returns nil has tested the buffer within its call, so the theorems on nil
      returns speak of every one. */
  lemma FlushOkHasTested(run: seq<Config>, acts: seq<Action>, t: nat, call: nat, end: nat) returns (test: nat)
    requires IsCall(run, acts, t, FlushReq, call, end) && At(run[end], t).result == FlushOk
    ensures call < test < end && At(run[test], t).FlushHeld?
    ensures run[call].world.history <= run[test].world.history
  {
    FlushStretch(run, acts, t, call, end);
    CallStarts(run, acts, t, FlushReq, call);
    FlushStarts(run, acts, t, call);
    test := FlushTests(run, acts, t, call + 1, end);
    RunGrows(run, acts, call, test);
  }

  lemma FlushStarts(run: seq<Config>, acts: seq<Action>, t: nat, call: nat)
    requires IsRun(run, acts) && call < |acts| && acts[call] == Invoke(t, FlushReq)
    ensures At(run[call + 1], t).FlushWait?
  {
    assert StepAt(run, acts, call);
  }

  /** In particular, as long as no write has failed, a nil return means that everything accepted
      before the call is stored, also on the early return for an empty buffer. */
  lemma FlushOkIsDurable(run: seq<Config>, acts: seq<Action>, t: nat, call: nat, end: nat)
    requires IsCall(run, acts, t, FlushReq, call, end) && At(run[end], t).result == FlushOk
    requires run[end].world.failures == {}
    ensures DurableTo(run[end].world, |run[call].world.history|)
  {
    var test := FlushOkHasTested(run, acts, t, call, end);
    RunGrows(run, acts, test, end);
    RunKeepsInv(run, acts, test);
    NothingMissingAtTest(run[test], t);
    FlushOkIsDurableIff(run, acts, t, call, test, end);
    DurableToFewer(run[end].world, |run[test].world.history|, |run[call].world.history|);
  }

  /** After a nil return with no segment missing at the test, every later Remote read of any key
      returns a value at least as new as the test, whatever fails later. */
  lemma FlushedWritesStayVisible(
    run: seq<Config>, acts: seq<Action>, t: nat, call: nat, test: nat, end: nat, later: nat, k: Key)
    requires IsCall(run, acts, t, FlushReq, call, end) && At(run[end], t).result == FlushOk
    requires call < test < end <= later < |run| && At(run[test], t).FlushHeld?
    requires Unwritten(run[test].world) == {}
    ensures Readable(run[later].world.store)
    ensures exists cut | |run[test].world.history| <= cut <= |run[later].world.history| ::
              AtomicGet(run[later].world.store, k, Remote) == LastPut(run[later].world.history[..cut], k)
  {
    FlushOkIsDurableIff(run, acts, t, call, test, end);
    DurableStaysDurable(run, acts, end, later, |run[test].world.history|);
    RunWorldOk(run, acts, later);
    DurableReadsIncludeThem(run[later].world, |run[test].world.history|, k);
  }

  lemma FailedWriteStep(c: Config, a: Action, c': Config)
    requires Inv(c) && IsStep(c, a, c') && a.WriteFails?
    ensures var s := c.world.store;
            && Readable(s) && s.flushID > 0 && s.frozen.Some? && !Written(s.bucket, s.flushID)
            && c'.world.store == (if a.landed then AfterWrite(s, s.flushID, s.frozen.value) else s)
            && c'.world.failures == c.world.failures + {s.flushID}
  {
    assert ThreadOk(c.world, c.pcs[a.t]);
  }

  /** A flush that returns an error has changed no Memory read by its failing write; Remote reads see
      the frozen buffer exactly if the object was stored all the same. */
  lemma FlushErrKeepsMemory(run: seq<Config>, acts: seq<Action>, t: nat, call: nat, end: nat, k: Key)
    requires IsCall(run, acts, t, FlushReq, call, end) && At(run[end], t).result == FlushErr
    ensures acts[end - 1].WriteFails? && Readable(run[end - 1].world.store) && Readable(run[end].world.store)
    ensures AtomicGet(run[end].world.store, k, Memory) == AtomicGet(run[end - 1].world.store, k, Memory)
    ensures var s := run[end - 1].world.store;
            AtomicGet(run[end].world.store, k, Remote)
            == Read(Visible(s, Remote) + if acts[end - 1].landed then FrozenLayer(s) else map[], k)
  {
    FlushErrIff(run, acts, t, call, end);
    assert StepAt(run, acts, end - 1);
    RunKeepsInv(run, acts, end - 1);
    FailedWriteStep(run[end - 1], acts[end - 1], run[end]);
    var s, s' := run[end - 1].world.store, run[end].world.store;
    if acts[end - 1].landed {
      WriteAndClearKeepMemory(s);
    }
    GetReadsVisible(s, k, Memory);
    GetReadsVisible(s', k, Memory);
    GetReadsVisible(s', k, Remote);
  }
}
