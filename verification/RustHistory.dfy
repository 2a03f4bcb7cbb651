/** The Rust store with the record of what happened to it, and what each phase of a flush keeps. */
module RustHistory {
  import opened Options
  import opened KeyValue
  import opened Epochs
  import opened RustStore

  datatype Segment = Segment(id: nat, content: Buffer)

  /** `flight` is the name and content that the one flush in its write holds; `nextId` is above
      every identifier drawn so far. The rest is the record: the accepted writes, how many of them
      preceded each freeze, the epochs whose content is in no stored segment, and how many segment
      writes returned an error. */
  datatype World = World(
    store: Store, flight: Option<Segment>, nextId: nat,
    history: seq<Op>, marks: seq<nat>, missing: set<nat>, failures: nat)

  const EMPTY_WORLD := World(EMPTY_STORE, None, 0, [], [], {}, 0)

  /** Where the flush that holds the gate stands. */
  datatype Phase = Resting | ToWrite | Sending | ToClear

  ghost function Stored(w: World): Buffer {
    Overlay(w.store.objects, w.nextId)
  }

  function InFlight(w: World): Buffer {
    if w.flight.Some? then w.flight.value.content else map[]
  }

  /** The epochs that no reader can find: those in no segment, but for a frozen one. */
  function Away(w: World): set<nat> {
    if w.store.imm != map[] then w.missing - {|w.marks|} else w.missing
  }

  /** The epochs that are nowhere at all. */
  function Lost(w: World): set<nat> {
    if w.store.imm != map[] || w.flight.Some? then w.missing - {|w.marks|} else w.missing
  }

  ghost predicate SegmentsOk(w: World, form: Form, phase: Phase) {
    && Below(w.store.objects, w.nextId)
    && (w.flight.Some? <==> phase.Sending?)
    && (w.flight.Some? ==>
          && Below(w.store.objects, w.flight.value.id)
          && w.flight.value.id < w.nextId
          && w.flight.value.content != map[]
          && w.store.imm == if form.Take? then map[] else w.flight.value.content)
  }

  /** Every layer is its part of the history; the segments are all epochs but the missing ones. */
  ghost predicate HistoryOk(w: World) {
    var n := |w.marks|;
    && MarksOk(w.history, w.marks)
    && w.store.buf == Replay(Tail(w.history, w.marks))
    && (w.store.imm != map[] ==> n > 0 && w.store.imm == Replay(Epoch(w.history, w.marks, n)))
    && (w.flight.Some? ==> n > 0 && w.flight.value.content == Replay(Epoch(w.history, w.marks, n)))
    && Stored(w) == Replay(Kept(w.history, w.marks, w.missing, n))
  }

  /** The clone form loses nothing. In the shipped form nothing is frozen except between a freeze
      and its hand-over. Without failures a flush leaves nothing frozen or unstored, in either. */
  ghost predicate PhaseOk(w: World, form: Form, phase: Phase) {
    var n := |w.marks|;
    && (forall i | i in w.missing :: 1 <= i <= n)
    && (form.Clone? || w.failures == 0 ==> Lost(w) == {})
    && (form.Take? && !phase.ToWrite? ==> w.store.imm == map[])
    && (form.Take? && (w.store.imm != map[] || w.flight.Some?) ==> n in w.missing)
    && (w.failures == 0 && phase.Resting? ==> w.store.imm == map[])
    && (phase.ToClear? ==> w.store.imm == map[] || n !in w.missing)
  }

  ghost predicate WorldOk(w: World, form: Form, phase: Phase) {
    SegmentsOk(w, form, phase) && HistoryOk(w) && PhaseOk(w, form, phase)
  }

  function Accept(w: World, k: Key, e: Entry): World {
    w.(store := w.store.(buf := w.store.buf[k := e]), history := w.history + [Op(k, e)])
  }

  function FreezeWorld(w: World): World {
    if w.store.buf != map[] && w.store.imm == map[]
    then w.(store := Freeze(w.store), marks := w.marks + [|w.history|], missing := w.missing + {|w.marks| + 1})
    else w
  }

  function HandOver(w: World, form: Form, id: nat): World {
    w.(store := Hand(w.store, form), flight := Some(Segment(id, w.store.imm)), nextId := id + 1)
  }

  function LandWorld(w: World): World
    requires w.flight.Some?
  {
    w.(store := Land(w.store, w.flight.value.id, w.flight.value.content), flight := None,
       missing := w.missing - {|w.marks|})
  }

  /** The put reports an error; the object may or may not have been stored. */
  function FailWorld(w: World, landed: bool): World
    requires w.flight.Some?
  {
    var w' := if landed then LandWorld(w) else w;
    w'.(flight := None, failures := w.failures + 1)
  }

  function ClearWorld(w: World): World {
    w.(store := Clear(w.store))
  }

  lemma AcceptOk(w: World, form: Form, phase: Phase, k: Key, e: Entry)
    requires WorldOk(w, form, phase)
    ensures WorldOk(Accept(w, k, e), form, phase)
  {
    MarksAfterWrite(w.history, w.marks, Op(k, e));
    ReplaySnoc(Tail(w.history, w.marks), Op(k, e));
    KeptExtends(w.history, w.marks, w.history + [Op(k, e)], w.marks, w.missing, |w.marks|);
  }

  /** The epoch that a freeze ends is missing at first. */
  lemma FreezeKeepsKept(h: seq<Op>, marks: seq<nat>, missing: set<nat>)
    requires MarksOk(h, marks) && Tail(h, marks) != []
    requires forall i | i in missing :: 1 <= i <= |marks|
    ensures MarksOk(h, marks + [|h|])
    ensures Kept(h, marks + [|h|], missing + {|marks| + 1}, |marks| + 1) == Kept(h, marks, missing, |marks|)
  {
    var n := |marks|;
    MarksAfterFreeze(h, marks);
    KeptIgnores(h, marks + [|h|], missing + {n + 1}, n + 1, n);
    assert missing + {n + 1} - {n + 1} == missing;
    KeptExtends(h, marks, h, marks + [|h|], missing, n);
  }

  lemma FreezeOk(w: World, form: Form)
    requires WorldOk(w, form, Resting)
    ensures WorldOk(FreezeWorld(w), form, ToWrite)
  {
    if FreezeWorld(w) != w {
      ReplayEmpty(Tail(w.history, w.marks));
      MarksAfterFreeze(w.history, w.marks);
      FreezeKeepsKept(w.history, w.marks, w.missing);
      assert w.missing + {|w.marks| + 1} - {|w.marks| + 1} == w.missing;
    }
  }

  lemma HandOverOk(w: World, form: Form, id: nat)
    requires WorldOk(w, form, ToWrite) && w.store.imm != map[] && id >= w.nextId
    ensures WorldOk(HandOver(w, form, id), form, Sending)
    ensures Stored(HandOver(w, form, id)) == Stored(w)
  {
    OverlayStops(w.store.objects, w.nextId, id + 1);
  }

  lemma LandedIs(w: World, form: Form)
    requires WorldOk(w, form, Sending)
    ensures Stored(LandWorld(w)) == Stored(w) + InFlight(w)
    ensures Below(LandWorld(w).store.objects, w.nextId)
  {
    var Segment(id, content) := w.flight.value;
    OverlayLands(w.store.objects, id, content);
    OverlayStops(w.store.objects[id := content], id + 1, w.nextId);
    OverlayStops(w.store.objects, id, w.nextId);
  }

  lemma KeptAtNewest(h: seq<Op>, marks: seq<nat>, missing: set<nat>)
    requires MarksOk(h, marks) && marks != []
    ensures var n := |marks|;
            var below, epoch := Kept(h, marks, missing, n - 1), Epoch(h, marks, n);
            && Kept(h, marks, missing - {n}, n) == below + epoch
            && Kept(h, marks, missing, n) == if n in missing then below else below + epoch
  {
    KeptIgnores(h, marks, missing, |marks|, |marks| - 1);
  }

  /** Laying the newest epoch over what is left puts it back, and does no harm if it was there. */
  lemma KeptWithNewest(h: seq<Op>, marks: seq<nat>, missing: set<nat>)
    requires MarksOk(h, marks) && marks != []
    ensures Replay(Kept(h, marks, missing - {|marks|}, |marks|))
            == Replay(Kept(h, marks, missing, |marks|)) + Replay(Epoch(h, marks, |marks|))
  {
    var below, epoch := Kept(h, marks, missing, |marks| - 1), Epoch(h, marks, |marks|);
    KeptAtNewest(h, marks, missing);
    ReplayTwice(below, epoch);
  }

  lemma ReplayTwice(below: seq<Op>, epoch: seq<Op>)
    ensures Replay(below + epoch) == Replay(below) + Replay(epoch)
    ensures Replay(below + epoch) == Replay(below + epoch) + Replay(epoch)
  {
    ReplayConcat(below, epoch);
    LayerTwice(Replay(below), Replay(epoch));
  }

  lemma LandOk(w: World, form: Form)
    requires WorldOk(w, form, Sending)
    ensures WorldOk(LandWorld(w), form, ToClear)
  {
    LandedIs(w, form);
    KeptWithNewest(w.history, w.marks, w.missing);
  }

  lemma FailOk(w: World, form: Form, landed: bool)
    requires WorldOk(w, form, Sending)
    ensures WorldOk(FailWorld(w, landed), form, Resting)
  {
    if landed {
      LandOk(w, form);
    }
  }

  lemma ClearOk(w: World, form: Form)
    requires WorldOk(w, form, ToClear)
    ensures WorldOk(ClearWorld(w), form, Resting)
  {
  }

  // ----- Reads of a single state -----

  /** The layers as one atomic Memory read would see them; content in flight is in none of them. */
  ghost function MemoryView(w: World): Buffer {
    Stored(w) + w.store.imm + w.store.buf
  }

  lemma SegmentsAndFrozen(w: World, form: Form, phase: Phase)
    requires WorldOk(w, form, phase)
    ensures Stored(w) + w.store.imm == Replay(Kept(w.history, w.marks, Away(w), |w.marks|))
  {
    if w.store.imm == map[] {
      assert Stored(w) + map[] == Stored(w);
    } else {
      KeptWithNewest(w.history, w.marks, w.missing);
    }
  }

  /** In every state and either form, whatever failed: an atomic Memory read of `k` is its last put
      if and only if the newest epoch that wrote `k` is not away, or something newer holds `k`, or
      what is left happens to answer alike. In the clone form no epoch is ever away. */
  lemma MemoryViewIsLastPutIff(w: World, form: Form, phase: Phase, k: Key)
    requires WorldOk(w, form, phase)
    ensures Read(MemoryView(w), k) == LastPut(w.history, k) <==> !Hidden(w.history, w.marks, Away(w), k)
    ensures form.Clone? ==> Away(w) == {}
  {
    var n, tail := |w.marks|, Tail(w.history, w.marks);
    var kept := Kept(w.history, w.marks, Away(w), n);
    SegmentsAndFrozen(w, form, phase);
    ReadLayered(Replay(kept), tail, k);
    ReplayIsLastPut(kept, k);
    LastPutConcat(kept, tail, k);
    ReadsLastPutUnlessHidden(w.history, w.marks, Away(w), k);
  }

  /** A clean read is a read of the history without the missing epochs. */
  lemma StoredIsKept(w: World, form: Form, phase: Phase, k: Key)
    requires WorldOk(w, form, phase)
    ensures Read(Stored(w), k) == LastPut(Kept(w.history, w.marks, w.missing, |w.marks|), k)
  {
    ReplayIsLastPut(Kept(w.history, w.marks, w.missing, |w.marks|), k);
  }

  /** The freeze point of the newest epoch that is stored, when none is lost. */
  function StoredPoint(w: World): nat {
    if w.marks != [] && |w.marks| in w.missing then Mark(w.marks, |w.marks| - 1) else Mark(w.marks, |w.marks|)
  }

  /** With nothing lost the stored segments are a prefix of the history. */
  lemma StoredIsPrefix(w: World, form: Form, phase: Phase, k: Key)
    requires WorldOk(w, form, phase) && Lost(w) == {}
    ensures StoredPoint(w) <= |w.history|
    ensures Read(Stored(w), k) == LastPut(w.history[..StoredPoint(w)], k)
  {
    var n := |w.marks|;
    StoredIsKept(w, form, phase, k);
    forall i | i in w.missing ensures i == n {
      assert i !in w.missing - {n};
    }
    KeptAll(w.history, w.marks, w.missing, if n in w.missing then n - 1 else n);
  }

  // ----- Reads that look at the layers one after the other -----

  /** How many epochs have left the frozen buffer. */
  function Settled(w: World): (n: nat)
    ensures n <= |w.marks|
  {
    if w.store.imm != map[] && w.marks != [] then |w.marks| - 1 else |w.marks|
  }

  /** The last put of `k` before the last freeze, and before the end of the last settled epoch. */
  ghost function FrozenPut(w: World, k: Key): Entry
    requires MarksOk(w.history, w.marks)
  {
    LastPut(w.history[..Mark(w.marks, |w.marks|)], k)
  }

  ghost function SettledPut(w: World, k: Key): Entry
    requires MarksOk(w.history, w.marks)
  {
    LastPut(w.history[..Mark(w.marks, Settled(w))], k)
  }

  /** The newest settled epoch that wrote `k`, or zero. */
  ghost function NewestSettled(w: World, k: Key): nat
    requires MarksOk(w.history, w.marks)
  {
    NewestOf(w.history, w.marks, Settled(w), k)
  }

  /** The segments lack the newest settled epoch that wrote `k`, and answer differently. */
  ghost predicate Overlooked(w: World, k: Key) {
    && MarksOk(w.history, w.marks)
    && var e := NewestSettled(w, k);
       e > 0 && e in w.missing && LastPut(Epoch(w.history, w.marks, e), k) != Read(Stored(w), k)
  }

  /** In the clone form nothing is overlooked. In the shipped form, unless the epoch in question was
      lost to a failed write, a key is overlooked exactly when it is in a taken but unwritten
      segment under a value that differs from the stored one. */
  lemma OverlookedIs(w: World, form: Form, phase: Phase, k: Key)
    requires WorldOk(w, form, phase)
    ensures form.Clone? ==> !Overlooked(w, k)
    ensures form.Take? && NewestSettled(w, k) !in Lost(w) ==>
              (Overlooked(w, k) <==> k in InFlight(w) && InFlight(w)[k] != Read(Stored(w), k))
  {
    var n := |w.marks|;
    if w.flight.Some? {
      ReplayIsLastPut(Epoch(w.history, w.marks, n), k);
    }
    if form.Clone? {
      assert forall i | i in w.missing :: i == n by {
        assert forall i | i in w.missing && i != n :: i in w.missing - {n};
      }
    }
  }

  lemma StoredIsSettled(w: World, form: Form, phase: Phase, k: Key)
    requires WorldOk(w, form, phase) && Settled(w) == |w.marks| - 1 && |w.marks| in w.missing
    ensures Read(Stored(w), k) == LastPut(Kept(w.history, w.marks, w.missing, Settled(w)), k)
  {
    StoredIsKept(w, form, phase, k);
    KeptAtNewest(w.history, w.marks, w.missing);
  }

  /** What the segments answer: the settled put or the frozen one, unless `k` is overlooked. */
  lemma StoredUnlessOverlooked(w: World, form: Form, phase: Phase, k: Key)
    requires WorldOk(w, form, phase)
    ensures Overlooked(w, k) ==> Read(Stored(w), k) != SettledPut(w, k)
    ensures !Overlooked(w, k) ==> Read(Stored(w), k) == SettledPut(w, k) || Read(Stored(w), k) == FrozenPut(w, k)
  {
    var n := |w.marks|;
    KeptOfKey(w.history, w.marks, w.missing, Settled(w), k);
    if Settled(w) < n && n !in w.missing {
      AllStored(w, form, phase, k);
    } else if Settled(w) < n {
      StoredIsSettled(w, form, phase, k);
    } else {
      StoredIsKept(w, form, phase, k);
    }
  }

  lemma AllStored(w: World, form: Form, phase: Phase, k: Key)
    requires WorldOk(w, form, phase) && w.store.imm != map[] && |w.marks| !in w.missing
    ensures Read(Stored(w), k) == FrozenPut(w, k) && w.missing == {}
  {
    assert w.missing - {|w.marks|} == w.missing;
    StoredIsKept(w, form, phase, k);
    KeptAll(w.history, w.marks, w.missing, |w.marks|);
  }

  /** A miss in `buf`, and then in the frozen buffer, pushes the last put further down. */
  lemma MissInBuf(w: World, form: Form, phase: Phase, k: Key)
    requires WorldOk(w, form, phase)
    ensures if k in w.store.buf then w.store.buf[k] == LastPut(w.history, k)
            else FrozenPut(w, k) == LastPut(w.history, k)
  {
    TailDecides(w.history, w.marks, k);
    ReplayIsLastPut(Tail(w.history, w.marks), k);
  }

  lemma MissInFrozen(w: World, form: Form, phase: Phase, k: Key)
    requires WorldOk(w, form, phase)
    ensures if k in w.store.imm then w.store.imm[k] == FrozenPut(w, k) else SettledPut(w, k) == FrozenPut(w, k)
  {
    if w.store.imm != map[] {
      PrefixDecides(w.history, w.marks, |w.marks|, k);
      ReplayIsLastPut(Epoch(w.history, w.marks, |w.marks|), k);
    }
  }
}
