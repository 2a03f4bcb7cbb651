/** The Go store together with the record of what happened to it, and the invariant that ties
    each layer to the part of the history it came from. */
module GoHistory {
  import opened KeyValue
  import opened BlobNames
  import opened Epochs
  import opened GoStore

  /** `history`: every accepted write in order. `marks`: how many writes had been accepted at each
      freeze. `failures`: the segments whose write returned an error. */
  datatype World = World(store: Store, history: seq<Op>, marks: seq<nat>, failures: set<nat>)

  const EMPTY_WORLD := World(EMPTY_STORE, [], [], {})

  /** What the frozen buffer and the stored segment of epoch `i` hold. */
  ghost function EpochBlob(h: seq<Op>, marks: seq<nat>, i: nat): Blob
    requires MarksOk(h, marks) && 1 <= i <= |marks|
  {
    TagAll(Replay(Epoch(h, marks, i)))
  }

  /** Each stored segment is its epoch, nothing is stored ahead of the counter, and only a failed
      write leaves a gap below it. */
  ghost predicate SegmentsOk(w: World)
    requires MarksOk(w.history, w.marks) && |w.marks| == w.store.flushID
  {
    && BucketReadable(w.store.bucket)
    && (forall i | 1 <= i <= w.store.flushID && Written(w.store.bucket, i) ::
          w.store.bucket[BlobKey(i)] == EpochBlob(w.history, w.marks, i))
    && (forall i | i > w.store.flushID :: !Written(w.store.bucket, i))
    && (forall i | 1 <= i < w.store.flushID :: Written(w.store.bucket, i) || i in w.failures)
    && (forall i | i in w.failures :: 1 <= i <= w.store.flushID)
  }

  /** The active buffer is the tail of the history. The frozen buffer, when there is one, is the
      newest epoch, and it goes only once that epoch is stored. */
  ghost predicate BuffersOk(w: World)
    requires MarksOk(w.history, w.marks) && |w.marks| == w.store.flushID
  {
    && w.store.buffer == Replay(Tail(w.history, w.marks))
    && (w.store.frozen.Some? ==>
          w.store.flushID > 0 && w.store.frozen.value == EpochBlob(w.history, w.marks, w.store.flushID))
    && (w.store.frozen.None? && w.store.flushID > 0 ==> Written(w.store.bucket, w.store.flushID))
  }

  ghost predicate WorldOk(w: World) {
    && MarksOk(w.history, w.marks)
    && |w.marks| == w.store.flushID
    && SegmentsOk(w)
    && BuffersOk(w)
  }

  function Accept(w: World, k: Key, e: Entry): World {
    w.(store := AfterPut(w.store, k, e), history := w.history + [Op(k, e)])
  }

  function FreezeWorld(w: World): World {
    w.(store := AfterFreeze(w.store), marks := w.marks + [|w.history|])
  }

  /** The segment lands, whether or not its write then reports an error. */
  function Land(w: World, id: nat, data: Blob): World {
    w.(store := AfterWrite(w.store, id, data))
  }

  function Fail(w: World, id: nat): World {
    w.(failures := w.failures + {id})
  }

  function ClearWorld(w: World): World {
    w.(store := AfterClear(w.store))
  }

  lemma AcceptOk(w: World, k: Key, e: Entry)
    requires WorldOk(w)
    ensures WorldOk(Accept(w, k, e))
  {
    MarksAfterWrite(w.history, w.marks, Op(k, e));
    ReplaySnoc(Tail(w.history, w.marks), Op(k, e));
  }

  lemma FreezeOk(w: World)
    requires WorldOk(w) && w.store.buffer != map[]
    requires w.store.flushID > 0 ==> Written(w.store.bucket, w.store.flushID) || w.store.flushID in w.failures
    ensures WorldOk(FreezeWorld(w))
  {
    ReplayEmpty(Tail(w.history, w.marks));
    MarksAfterFreeze(w.history, w.marks);
  }

  lemma LandOk(w: World)
    requires WorldOk(w) && w.store.frozen.Some?
    ensures WorldOk(Land(w, w.store.flushID, w.store.frozen.value))
    ensures var b := Land(w, w.store.flushID, w.store.frozen.value).store.bucket;
            forall i: nat :: Written(b, i) <==> i == w.store.flushID || Written(w.store.bucket, i)
  {
    var id := w.store.flushID;
    var b := w.store.bucket[BlobKey(id) := w.store.frozen.value];
    forall i: nat
      ensures Written(b, i) <==> i == id || Written(w.store.bucket, i)
      ensures i != id && Written(b, i) ==> b[BlobKey(i)] == w.store.bucket[BlobKey(i)]
    {
      BlobKeyInjective(i, id);
    }
  }

  lemma FailOk(w: World, id: nat)
    requires WorldOk(w) && 1 <= id <= w.store.flushID
    ensures WorldOk(Fail(w, id))
  {
  }

  lemma ClearOk(w: World)
    requires WorldOk(w) && Written(w.store.bucket, w.store.flushID)
    ensures WorldOk(ClearWorld(w))
  {
  }
}
