/** What reads of the Go store return, in terms of the history of accepted writes. */
module GoReads {
  import opened KeyValue
  import opened Epochs
  import opened GoStore
  import opened GoHistory

  ghost function Unwritten(w: World): set<nat> {
    set i | 1 <= i <= w.store.flushID && !Written(w.store.bucket, i)
  }

  /** Unwritten segments that a later freeze has replaced in the frozen buffer. */
  ghost function Superseded(w: World): set<nat> {
    Unwritten(w) - {w.store.flushID}
  }

  lemma {:induction false} OverlayIsKept(w: World, n: nat, k: Key)
    requires WorldOk(w) && n <= w.store.flushID
    ensures Read(Overlay(w.store.bucket, n), k) == LastPut(Kept(w.history, w.marks, Unwritten(w), n), k)
  {
    if n == 0 {
    } else {
      OverlayIsKept(w, n - 1, k);
      if Written(w.store.bucket, n) {
        var epoch := Epoch(w.history, w.marks, n);
        ReadLayered(Overlay(w.store.bucket, n - 1), epoch, k);
        LastPutConcat(Kept(w.history, w.marks, Unwritten(w), n - 1), epoch, k);
      }
    }
  }

  /** A Remote read is a read of the history without the epochs whose segments do not exist. */
  lemma RemoteReadIsKept(w: World, k: Key)
    requires WorldOk(w)
    ensures Readable(w.store)
    ensures AtomicGet(w.store, k, Remote)
            == LastPut(Kept(w.history, w.marks, Unwritten(w), w.store.flushID), k)
  {
    GetReadsVisible(w.store, k, Remote);
    OverlayIsKept(w, w.store.flushID, k);
  }

  lemma NewestLayer(w: World)
    requires WorldOk(w) && w.store.flushID > 0
    ensures Readable(w.store)
    ensures var n := w.store.flushID;
            Overlay(w.store.bucket, n) + FrozenLayer(w.store)
            == Overlay(w.store.bucket, n - 1) + Replay(Epoch(w.history, w.marks, n))
  {
    var n := w.store.flushID;
    var under, top := Overlay(w.store.bucket, n - 1), Replay(Epoch(w.history, w.marks, n));
    assert Overlay(w.store.bucket, n) == if Written(w.store.bucket, n) then under + top else under;
    assert FrozenLayer(w.store) == if w.store.frozen.Some? then top else map[];
    LayerTwice(under, top);
    LayerTwice(under, map[]);
  }

  /** The segments with the frozen buffer over them: its epoch is never missing. */
  lemma FrozenOverSegments(w: World, k: Key)
    requires WorldOk(w)
    ensures Readable(w.store)
    ensures Read(Overlay(w.store.bucket, w.store.flushID) + FrozenLayer(w.store), k)
            == LastPut(Kept(w.history, w.marks, Superseded(w), w.store.flushID), k)
  {
    var n := w.store.flushID;
    if n > 0 {
      var epoch := Epoch(w.history, w.marks, n);
      NewestLayer(w);
      ReadLayered(Overlay(w.store.bucket, n - 1), epoch, k);
      OverlayIsKept(w, n - 1, k);
      KeptIgnores(w.history, w.marks, Unwritten(w), n, n - 1);
      LastPutConcat(Kept(w.history, w.marks, Superseded(w), n - 1), epoch, k);
    }
  }

  /** A Memory read is a read of the history without the epochs that were superseded unwritten. */
  lemma MemoryReadIsKept(w: World, k: Key)
    requires WorldOk(w)
    ensures Readable(w.store)
    ensures AtomicGet(w.store, k, Memory)
            == LastPut(Kept(w.history, w.marks, Superseded(w), w.store.flushID) + Tail(w.history, w.marks), k)
  {
    var tail := Tail(w.history, w.marks);
    GetReadsVisible(w.store, k, Memory);
    ReadLayered(Overlay(w.store.bucket, w.store.flushID) + FrozenLayer(w.store), tail, k);
    LastPutConcat(Kept(w.history, w.marks, Superseded(w), w.store.flushID), tail, k);
    FrozenOverSegments(w, k);
  }

  /** As long as no unwritten segment has been superseded, a Memory read returns the last put.
      A failed write alone does not end this; only a later freeze can. */
  lemma MemoryReadIsLastPut(w: World, k: Key)
    requires WorldOk(w) && Superseded(w) == {}
    ensures Readable(w.store) && AtomicGet(w.store, k, Memory) == LastPut(w.history, k)
  {
    var n := w.store.flushID;
    MemoryReadIsKept(w, k);
    KeptAll(w.history, w.marks, {}, n);
    assert w.history[..Mark(w.marks, n)] + Tail(w.history, w.marks) == w.history;
  }

  /** In every state, whatever failed: a Memory read of `k` is its last put if and only if the
      newest epoch that wrote `k` was not superseded unwritten, or something newer holds `k`, or
      what is left happens to answer alike. */
  lemma MemoryReadIsLastPutIff(w: World, k: Key)
    requires WorldOk(w)
    ensures Readable(w.store)
    ensures AtomicGet(w.store, k, Memory) == LastPut(w.history, k)
            <==> !Hidden(w.history, w.marks, Superseded(w), k)
  {
    MemoryReadIsKept(w, k);
    ReadsLastPutUnlessHidden(w.history, w.marks, Superseded(w), k);
  }

  /** The frozen buffer is not stored and holds for `k` something that neither the active buffer
      nor the segments hold. */
  ghost predicate OnlyFrozenHas(w: World, k: Key)
    requires Readable(w.store)
  {
    && w.store.flushID > 0
    && !Written(w.store.bucket, w.store.flushID)
    && k in FrozenLayer(w.store)
    && k !in w.store.buffer
    && FrozenLayer(w.store)[k] != Read(Overlay(w.store.bucket, w.store.flushID), k)
  }

  lemma FreezeDropsFrozen(w: World, k: Key)
    requires WorldOk(w) && WorldOk(FreezeWorld(w))
    ensures Readable(w.store) && Readable(FreezeWorld(w).store)
    ensures AtomicGet(FreezeWorld(w).store, k, Memory)
            == Read(Overlay(w.store.bucket, w.store.flushID) + w.store.buffer, k)
  {
    var f := FreezeWorld(w).store;
    GetReadsVisible(f, k, Memory);
    assert Overlay(f.bucket, f.flushID) == Overlay(w.store.bucket, w.store.flushID);
  }

  /** What a read of the segments and the active buffer alone misses of a Memory read. */
  lemma WithoutFrozen(w: World, k: Key)
    requires WorldOk(w)
    ensures Readable(w.store)
    ensures Read(Overlay(w.store.bucket, w.store.flushID) + w.store.buffer, k) != AtomicGet(w.store, k, Memory)
            <==> OnlyFrozenHas(w, k)
  {
    GetReadsVisible(w.store, k, Memory);
    if w.store.flushID > 0 && Written(w.store.bucket, w.store.flushID) {
      NewestLayer(w);
    }
  }

  /** The freeze that follows a failed write changes the Memory read of `k` exactly when the
      frozen buffer it replaces was not stored, held `k`, the active buffer does not hold it,
      and the segments below answer differently. */
  lemma FreezeLoses(w: World, k: Key)
    requires WorldOk(w) && w.store.buffer != map[]
    requires w.store.flushID > 0 ==> Written(w.store.bucket, w.store.flushID) || w.store.flushID in w.failures
    ensures Readable(w.store) && WorldOk(FreezeWorld(w)) && Readable(FreezeWorld(w).store)
    ensures AtomicGet(FreezeWorld(w).store, k, Memory) != AtomicGet(w.store, k, Memory) <==> OnlyFrozenHas(w, k)
  {
    FreezeOk(w);
    FreezeDropsFrozen(w, k);
    WithoutFrozen(w, k);
  }

  // ----- Durability -----

  ghost function NewestWritten(bucket: Bucket, n: nat): (m: nat)
    ensures m <= n && (m > 0 ==> Written(bucket, m))
    ensures forall i | m < i <= n :: !Written(bucket, i)
  {
    if n == 0 || Written(bucket, n) then n else NewestWritten(bucket, n - 1)
  }

  /** How many writes precede the freeze of the newest stored segment. */
  ghost function DurablePoint(w: World): nat
    requires |w.marks| == w.store.flushID
  {
    Mark(w.marks, NewestWritten(w.store.bucket, w.store.flushID))
  }

  /** A Remote read of any key is a read of one prefix of the history, the one that ends at the
      freeze of the newest stored segment. */
  lemma RemoteReadIsPrefix(w: World, k: Key)
    requires WorldOk(w) && Superseded(w) == {}
    ensures Readable(w.store) && DurablePoint(w) <= |w.history|
    ensures AtomicGet(w.store, k, Remote) == LastPut(w.history[..DurablePoint(w)], k)
  {
    var n, m := w.store.flushID, NewestWritten(w.store.bucket, w.store.flushID);
    forall i | i in Unwritten(w) ensures i == n {
      assert i !in Unwritten(w) - {n};
    }
    RemoteReadIsKept(w, k);
    KeptAll(w.history, w.marks, Unwritten(w), m);
    if m < n {
      assert forall i | m < i <= n :: i in Unwritten(w);
      assert m + 1 == n;
    }
  }

  /** The first `count` writes are in segments that exist, with no gap below. */
  ghost predicate DurableTo(w: World, count: nat) {
    Covered(w.marks, Unwritten(w), count)
  }

  /** Everything frozen so far is durable exactly when no segment is missing. */
  lemma AllFrozenIsDurable(w: World)
    requires WorldOk(w)
    ensures DurableTo(w, Mark(w.marks, |w.marks|)) <==> Unwritten(w) == {}
  {
    var n := |w.marks|;
    if Unwritten(w) == {} {
      assert Complete(Unwritten(w), n);
    }
  }

  /** The first `count` writes are visible to, or overwritten in, a Remote read of any key,
      whatever failed after them. */
  lemma DurableReadsIncludeThem(w: World, count: nat, k: Key)
    requires WorldOk(w) && DurableTo(w, count)
    ensures Readable(w.store)
    ensures exists cut | count <= cut <= |w.history| ::
              AtomicGet(w.store, k, Remote) == LastPut(w.history[..cut], k)
  {
    var m :| 0 <= m <= |w.marks| && Complete(Unwritten(w), m) && count <= Mark(w.marks, m);
    RemoteReadIsKept(w, k);
    var cut := KeptIsSomeCut(w.history, w.marks, Unwritten(w), m, w.store.flushID, k);
  }
}
