/** The store's own specification: the `Writer` and `Storage` roles as one abstract machine.
    An entry `None` stands for the value NOT_FOUND. */
module FizzSpec {
  import opened Options
  import opened KeyValue
  import opened BlobNames

  /** Where the one Flush that may be active stands; it yields after each of its statements. */
  datatype FlushPc = NotFlushing | Frozen | Wrote

  datatype Spec = Spec(
    buf: Buffer, immutableBuf: Buffer, nextIndex: nat, data: map<string, Buffer>, flush: FlushPc,
    lastPut: Buffer)

  const SPEC_INIT := Spec(map[], map[], 1, map[], NotFlushing, map[])

  datatype SpecAction =
    | SPut(key: Key, value: Entry)
    | SGet(key: Key, dirtyRead: bool, value: Entry)
    | SFreeze
    | SWrite
    | SClear

  /** The loop `for i in reversed(range(1, n))`. */
  function SpecScan(data: map<string, Buffer>, n: nat, k: Key): Entry {
    if n <= 1 then None
    else if Filename(n - 1) in data && k in data[Filename(n - 1)] then data[Filename(n - 1)][k]
    else SpecScan(data, n - 1, k)
  }

  function SpecGet(s: Spec, k: Key, dirtyRead: bool): Entry {
    if dirtyRead && k in s.buf then s.buf[k]
    else if dirtyRead && k in s.immutableBuf then s.immutableBuf[k]
    else SpecScan(s.data, s.nextIndex, k)
  }

  predicate Allowed(s: Spec, a: SpecAction) {
    match a
    case SPut(_, _) => true
    case SGet(k, dirtyRead, v) => v == SpecGet(s, k, dirtyRead)
    case SFreeze => s.flush == NotFlushing
    case SWrite => s.flush == Frozen
    case SClear => s.flush == Wrote
  }

  function SpecDo(s: Spec, a: SpecAction): Spec {
    match a
    case SPut(k, v) => s.(buf := s.buf[k := v], lastPut := s.lastPut[k := v])
    case SGet(_, _, _) => s
    case SFreeze =>
      if s.buf == map[] || s.immutableBuf != map[] then s.(flush := Frozen)
      else s.(immutableBuf := s.buf, buf := map[], flush := Frozen)
    case SWrite =>
      if s.immutableBuf == map[] then s.(flush := Wrote)
      else s.(data := s.data[Filename(s.nextIndex) := s.immutableBuf], nextIndex := s.nextIndex + 1,
              flush := Wrote)
    case SClear => s.(immutableBuf := map[], flush := NotFlushing)
  }

  /** `trace` is a behaviour of the specification that leads from `s` to `s'`. */
  ghost predicate Behaves(s: Spec, trace: seq<SpecAction>, s': Spec)
    decreases trace
  {
    if trace == [] then s == s'
    else Allowed(s, trace[0]) && Behaves(SpecDo(s, trace[0]), trace[1..], s')
  }

  lemma {:induction false} BehavesConcat(s: Spec, a: seq<SpecAction>, m: Spec, b: seq<SpecAction>, s': Spec)
    requires Behaves(s, a, m) && Behaves(m, b, s')
    ensures Behaves(s, a + b, s')
    decreases a
  {
    if a == [] {
      assert a + b == b;
    } else {
      BehavesConcat(SpecDo(s, a[0]), a[1..], m, b, s');
      assert (a + b)[1..] == a[1..] + b;
    }
  }

  // ----- The specification's own assertions -----

  ghost function SpecOverlay(data: map<string, Buffer>, n: nat): Buffer {
    if n <= 1 then map[]
    else SpecOverlay(data, n - 1) + if Filename(n - 1) in data then data[Filename(n - 1)] else map[]
  }

  ghost function Layers(s: Spec): Buffer {
    SpecOverlay(s.data, s.nextIndex) + s.immutableBuf + s.buf
  }

  ghost predicate SpecInv(s: Spec) {
    && s.nextIndex >= 1
    && (forall i | i >= s.nextIndex :: Filename(i) !in s.data)
    && Layers(s) == s.lastPut
    && (s.flush == NotFlushing ==> s.immutableBuf == map[])
    && (s.flush == Wrote && s.immutableBuf != map[] ==>
          && s.nextIndex > 1
          && Filename(s.nextIndex - 1) in s.data
          && s.data[Filename(s.nextIndex - 1)] == s.immutableBuf)
  }

  lemma {:induction false} SpecScanIsOverlay(data: map<string, Buffer>, n: nat, k: Key)
    ensures SpecScan(data, n, k) == Read(SpecOverlay(data, n), k)
  {
    if n <= 1 {
    } else {
      SpecScanIsOverlay(data, n - 1, k);
    }
  }

  lemma {:induction false} SpecOverlayIgnores(data: map<string, Buffer>, i: nat, content: Buffer, n: nat)
    requires i >= n
    ensures SpecOverlay(data[Filename(i) := content], n) == SpecOverlay(data, n)
  {
    if n <= 1 {
    } else {
      FilenameInjective(i, n - 1);
      SpecOverlayIgnores(data, i, content, n - 1);
    }
  }

  lemma SpecOverlayLands(data: map<string, Buffer>, i: nat, content: Buffer)
    requires i >= 1
    ensures SpecOverlay(data[Filename(i) := content], i + 1) == SpecOverlay(data, i) + content
  {
    SpecOverlayIgnores(data, i, content, i);
    assert data[Filename(i) := content][Filename(i)] == content;
  }

  lemma SpecWriteKeepsInv(s: Spec)
    requires SpecInv(s) && s.flush == Frozen && s.immutableBuf != map[]
    ensures SpecInv(SpecDo(s, SWrite))
  {
    var s' := SpecDo(s, SWrite);
    SpecOverlayLands(s.data, s.nextIndex, s.immutableBuf);
    forall i | i > s.nextIndex ensures Filename(i) !in s'.data {
      FilenameInjective(i, s.nextIndex);
    }
    LayerTwice(SpecOverlay(s.data, s.nextIndex), s.immutableBuf);
  }

  lemma SpecClearKeepsInv(s: Spec)
    requires SpecInv(s) && s.flush == Wrote
    ensures SpecInv(SpecDo(s, SClear))
  {
    assert SpecOverlay(s.data, s.nextIndex) + s.immutableBuf == SpecOverlay(s.data, s.nextIndex);
    assert Layers(SpecDo(s, SClear)) == Layers(s);
  }

  lemma SpecFreezeKeepsInv(s: Spec)
    requires SpecInv(s) && s.flush == NotFlushing
    ensures SpecInv(SpecDo(s, SFreeze))
  {
    assert Layers(SpecDo(s, SFreeze)) == Layers(s);
  }

  lemma SpecPutKeepsInv(s: Spec, k: Key, v: Entry)
    requires SpecInv(s)
    ensures SpecInv(SpecDo(s, SPut(k, v)))
  {
    assert Layers(SpecDo(s, SPut(k, v))) == Layers(s)[k := v];
  }

  lemma SpecStepKeepsInv(s: Spec, a: SpecAction)
    requires SpecInv(s) && Allowed(s, a)
    ensures SpecInv(SpecDo(s, a))
  {
    match a
    case SPut(k, v) => SpecPutKeepsInv(s, k, v);
    case SGet(_, _, _) =>
    case SFreeze => SpecFreezeKeepsInv(s);
    case SWrite =>
      if s.immutableBuf != map[] {
        SpecWriteKeepsInv(s);
      }
    case SClear => SpecClearKeepsInv(s);
  }

  /** A flush of an empty buffer changes nothing. */
  lemma EmptyFlushBehaves(s: Spec)
    requires s.flush == NotFlushing && s.buf == map[] && s.immutableBuf == map[]
    ensures Behaves(s, [SFreeze, SWrite, SClear], s)
  {
    var f := SpecDo(s, SFreeze);
    var w := SpecDo(f, SWrite);
    BehavesOne(w, SClear);
    BehavesFirst(f, SWrite, [SClear], s);
    BehavesFirst(s, SFreeze, [SWrite, SClear], s);
    assert [SFreeze] + [SWrite, SClear] == [SFreeze, SWrite, SClear] && [SWrite] + [SClear] == [SWrite, SClear];
  }

  lemma BehavesOne(s: Spec, a: SpecAction)
    requires Allowed(s, a)
    ensures Behaves(s, [a], SpecDo(s, a))
  {
    assert [a][1..] == [];
  }

  lemma BehavesFirst(s: Spec, a: SpecAction, rest: seq<SpecAction>, s': Spec)
    requires Allowed(s, a) && Behaves(SpecDo(s, a), rest, s')
    ensures Behaves(s, [a] + rest, s')
  {
    assert ([a] + rest)[1..] == rest;
  }

  lemma {:induction false} BehaviourKeepsInv(s: Spec, trace: seq<SpecAction>, s': Spec)
    requires SpecInv(s) && Behaves(s, trace, s')
    ensures SpecInv(s')
    decreases trace
  {
    if trace == [] {
    } else {
      SpecStepKeepsInv(s, trace[0]);
      BehaviourKeepsInv(SpecDo(s, trace[0]), trace[1..], s');
    }
  }

  /** The assertion DirtyRead: in every reachable state a dirty get is the last put. */
  lemma DirtyReadHolds(trace: seq<SpecAction>, s: Spec, k: Key)
    requires Behaves(SPEC_INIT, trace, s)
    ensures SpecGet(s, k, true) == Read(s.lastPut, k)
  {
    BehaviourKeepsInv(SPEC_INIT, trace, s);
    SpecScanIsOverlay(s.data, s.nextIndex, k);
  }

  /** So a dirty Get that the specification can do next returns the last put. */
  lemma DirtyGetReturnsLastPut(trace: seq<SpecAction>, s: Spec, k: Key, v: Entry)
    requires Behaves(SPEC_INIT, trace, s) && Allowed(s, SGet(k, true, v))
    ensures v == Read(s.lastPut, k)
  {
    DirtyReadHolds(trace, s, k);
  }

  // ----- DurableRead, over infinite behaviours -----

  ghost predicate StepOf(b: nat -> Spec, act: nat -> SpecAction, i: nat) {
    Allowed(b(i), act(i)) && b(i + 1) == SpecDo(b(i), act(i))
  }

  /** An infinite behaviour: state `i` takes action `i` to state `i + 1`. */
  ghost predicate IsBehaviour(b: nat -> Spec, act: nat -> SpecAction) {
    b(0) == SPEC_INIT && forall i: nat :: StepOf(b, act, i)
  }

  predicate IsFlushStep(a: SpecAction) {
    a.SFreeze? || a.SWrite? || a.SClear?
  }

  ghost predicate FlushesFrom(act: nat -> SpecAction, n: nat) {
    exists i: nat | i >= n :: IsFlushStep(act(i))
  }

  /** Flush is fair: some step of it is always possible, so it takes infinitely many. */
  ghost predicate Fair(act: nat -> SpecAction) {
    forall n: nat :: FlushesFrom(act, n)
  }

  /** From `n` on there are no more Puts. */
  ghost predicate PutsEnd(act: nat -> SpecAction, n: nat) {
    forall i: nat | i >= n :: !act(i).SPut?
  }

  ghost predicate DurableFrom(b: nat -> Spec, m: nat) {
    forall i: nat, k: Key | i >= m :: SpecGet(b(i), k, false) == Read(b(i).lastPut, k)
  }

  lemma {:induction false} BehaviourStateOk(b: nat -> Spec, act: nat -> SpecAction, i: nat)
    requires IsBehaviour(b, act)
    ensures SpecInv(b(i))
  {
    if i == 0 {
    } else {
      BehaviourStateOk(b, act, i - 1);
      assert StepOf(b, act, i - 1);
      SpecStepKeepsInv(b(i - 1), act(i - 1));
    }
  }

  /** Between two steps of Flush only Gets happen, and they change nothing. */
  lemma {:induction false} NextFlushStep(b: nat -> Spec, act: nat -> SpecAction, i: nat, some: nat) returns (j: nat)
    requires IsBehaviour(b, act) && PutsEnd(act, i)
    requires i <= some && IsFlushStep(act(some))
    ensures i <= j && IsFlushStep(act(j)) && b(j) == b(i)
    decreases some - i
  {
    if IsFlushStep(act(i)) {
      j := i;
    } else {
      assert StepOf(b, act, i);
      j := NextFlushStep(b, act, i + 1, some);
    }
  }

  lemma FlushMovesOn(b: nat -> Spec, act: nat -> SpecAction, i: nat) returns (j: nat)
    requires IsBehaviour(b, act) && PutsEnd(act, i) && Fair(act)
    ensures i <= j && act(j) == match b(i).flush case NotFlushing => SFreeze case Frozen => SWrite case Wrote => SClear
    ensures b(j + 1) == SpecDo(b(i), act(j))
  {
    assert FlushesFrom(act, i);
    var some: nat :| some >= i && IsFlushStep(act(some));
    j := NextFlushStep(b, act, i, some);
    assert StepOf(b, act, j);
  }

  lemma SomeClear(b: nat -> Spec, act: nat -> SpecAction, i: nat) returns (j: nat)
    requires IsBehaviour(b, act) && PutsEnd(act, i) && Fair(act)
    ensures i <= j && act(j) == SClear
  {
    j := FlushMovesOn(b, act, i);
    if act(j) != SClear {
      j := FlushMovesOn(b, act, j + 1);
      if act(j) != SClear {
        j := FlushMovesOn(b, act, j + 1);
      }
    }
  }

  lemma {:induction false} BufferStaysEmpty(b: nat -> Spec, act: nat -> SpecAction, i: nat, j: nat)
    requires IsBehaviour(b, act) && PutsEnd(act, i) && i <= j
    requires b(i).buf == map[]
    ensures b(j).buf == map[]
    ensures b(i).immutableBuf == map[] ==> b(j).immutableBuf == map[]
    decreases j
  {
    if i == j {
    } else {
      BufferStaysEmpty(b, act, i, j - 1);
      assert StepOf(b, act, j - 1);
    }
  }

  lemma DrainedReadsDurable(s: Spec, k: Key)
    requires SpecInv(s) && s.buf == map[] && s.immutableBuf == map[]
    ensures SpecGet(s, k, false) == Read(s.lastPut, k)
  {
    SpecScanIsOverlay(s.data, s.nextIndex, k);
    assert Layers(s) == SpecOverlay(s.data, s.nextIndex);
  }

  /** Once a flush has frozen after the last Put and has run to its end, Gets in between allowed,
      every clean get is the last put, for good. */
  lemma FlushMakesDurable(b: nat -> Spec, act: nat -> SpecAction, freeze: nat, clear: nat)
    requires IsBehaviour(b, act) && PutsEnd(act, freeze)
    requires freeze < clear && act(freeze) == SFreeze && act(clear) == SClear
    ensures DurableFrom(b, clear + 1)
  {
    BehaviourStateOk(b, act, freeze);
    assert StepOf(b, act, freeze) && StepOf(b, act, clear);
    BufferStaysEmpty(b, act, freeze + 1, clear);
    forall i: nat, k: Key | i >= clear + 1 ensures SpecGet(b(i), k, false) == Read(b(i).lastPut, k) {
      BufferStaysEmpty(b, act, clear + 1, i);
      BehaviourStateOk(b, act, i);
      DrainedReadsDurable(b(i), k);
    }
  }

  /** The assertion DurableRead: in every behaviour with finitely many Puts, under a fair Flush,
      from some moment on every clean get of every key is the last put; and so is what every Get
      that happens then returns, clean or dirty. */
  lemma DurableReadHolds(b: nat -> Spec, act: nat -> SpecAction, n: nat) returns (m: nat)
    requires IsBehaviour(b, act) && PutsEnd(act, n) && Fair(act)
    ensures DurableFrom(b, m)
    ensures forall i: nat | i >= m && act(i).SGet? :: act(i).value == Read(b(i).lastPut, act(i).key)
  {
    var last := SomeClear(b, act, n);
    assert StepOf(b, act, last);
    var freeze := FlushMovesOn(b, act, last + 1);
    var clear := SomeClear(b, act, freeze + 1);
    FlushMakesDurable(b, act, freeze, clear);
    m := clear + 1;
    forall i: nat | i >= m && act(i).SGet? ensures act(i).value == Read(b(i).lastPut, act(i).key) {
      GetReturns(b, act, i);
      assert SpecGet(b(i), act(i).key, false) == Read(b(i).lastPut, act(i).key);
    }
  }

  lemma GetReturns(b: nat -> Spec, act: nat -> SpecAction, i: nat)
    requires IsBehaviour(b, act) && act(i).SGet?
    ensures act(i).value == SpecGet(b(i), act(i).key, act(i).dirtyRead)
    ensures act(i).dirtyRead ==> act(i).value == Read(b(i).lastPut, act(i).key)
  {
    assert StepOf(b, act, i);
    BehaviourStateOk(b, act, i);
    SpecScanIsOverlay(b(i).data, b(i).nextIndex, act(i).key);
  }
}
