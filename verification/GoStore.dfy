/** The Go store: its layers, their two encodings, and the critical sections of its methods. */
module GoStore {
  import opened Options
  import opened KeyValue
  import opened BlobNames

  /** A tag byte (0 deleted, 1 present) followed by the value: the form used by the frozen
      buffer and by segments. The active buffer keeps the raw entry instead. */
  type Tagged = seq<Byte>
  type Blob = map<Key, Tagged>
  type Bucket = map<string, Blob>

  function Tag(e: Entry): (b: Tagged)
    ensures |b| > 0 && Untag(b) == e
  {
    match e
    case None => [0]
    case Some(v) => var b := [1] + v; assert b[1..] == v; b
  }

  /** `val[0] == 0` means deleted; any other tag byte means present. */
  function Untag(b: Tagged): Entry
    requires |b| > 0
  {
    if b[0] == 0 then None else Some(b[1..])
  }

  predicate WellTagged(b: Blob) {
    forall k | k in b :: |b[k]| > 0
  }

  function TagAll(m: Buffer): (b: Blob)
    ensures WellTagged(b) && UntagAll(b) == m
  {
    map k | k in m :: Tag(m[k])
  }

  function UntagAll(b: Blob): Buffer
    requires WellTagged(b)
  {
    map k | k in b :: Untag(b[k])
  }

  /** The memory that the methods share: the three layers and the segment counter. */
  datatype Store = Store(buffer: Buffer, frozen: Option<Blob>, flushID: nat, bucket: Bucket)

  const EMPTY_STORE := Store(map[], None, 0, map[])

  ghost predicate Readable(s: Store) {
    && (s.frozen.Some? ==> WellTagged(s.frozen.value))
    && BucketReadable(s.bucket)
  }

  ghost predicate BucketReadable(bucket: Bucket) {
    forall name | name in bucket :: WellTagged(bucket[name])
  }

  predicate Written(bucket: Bucket, id: nat) {
    BlobKey(id) in bucket
  }

  // ----- Reads -----

  /** The newest-first loop over segments `i, i-1, ..., 1`, which skips missing ones. */
  ghost function Scan(bucket: Bucket, i: nat, k: Key): Entry
    requires BucketReadable(bucket)
  {
    if i == 0 then None
    else if BlobKey(i) in bucket && k in bucket[BlobKey(i)] then Untag(bucket[BlobKey(i)][k])
    else Scan(bucket, i - 1, k)
  }

  ghost function AtomicGet(s: Store, k: Key, d: Durability): Entry
    requires Readable(s)
  {
    if d.Memory? && k in s.buffer then s.buffer[k]
    else if d.Memory? && s.frozen.Some? && k in s.frozen.value then Untag(s.frozen.value[k])
    else Scan(s.bucket, s.flushID, k)
  }

  /** The reference meaning of segments `1..n`: decode what exists and lay newer over older. */
  ghost function Overlay(bucket: Bucket, n: nat): Buffer
    requires BucketReadable(bucket)
  {
    if n == 0 then map[]
    else if BlobKey(n) in bucket then Overlay(bucket, n - 1) + UntagAll(bucket[BlobKey(n)])
    else Overlay(bucket, n - 1)
  }

  ghost function FrozenLayer(s: Store): Buffer
    requires Readable(s)
  {
    if s.frozen.Some? then UntagAll(s.frozen.value) else map[]
  }

  /** What a read at level `d` sees, as one map. */
  ghost function Visible(s: Store, d: Durability): Buffer
    requires Readable(s)
  {
    var segments := Overlay(s.bucket, s.flushID);
    if d.Remote? then segments else segments + FrozenLayer(s) + s.buffer
  }

  lemma {:induction false} ScanIsOverlay(bucket: Bucket, n: nat, k: Key)
    requires BucketReadable(bucket)
    ensures Scan(bucket, n, k) == Read(Overlay(bucket, n), k)
  {
    if n == 0 {
    } else {
      ScanIsOverlay(bucket, n - 1, k);
    }
  }

  /** Reads of the layers, newest first, equal one lookup in the overlay, oldest first,
      for any number of segments with any of them missing. */
  lemma GetReadsVisible(s: Store, k: Key, d: Durability)
    requires Readable(s)
    ensures AtomicGet(s, k, d) == Read(Visible(s, d), k)
  {
    ScanIsOverlay(s.bucket, s.flushID, k);
  }

  // ----- Writes -----

  function AfterPut(s: Store, k: Key, e: Entry): Store {
    s.(buffer := s.buffer[k := e])
  }

  function AfterFreeze(s: Store): Store {
    s.(buffer := map[], frozen := Some(TagAll(s.buffer)), flushID := s.flushID + 1)
  }

  function AfterWrite(s: Store, id: nat, data: Blob): Store {
    s.(bucket := s.bucket[BlobKey(id) := data])
  }

  function AfterClear(s: Store): Store {
    s.(frozen := None)
  }

  lemma {:induction false} OverlayIgnores(bucket: Bucket, id: nat, data: Blob, n: nat)
    requires BucketReadable(bucket) && WellTagged(data)
    requires id > n
    ensures Overlay(bucket[BlobKey(id) := data], n) == Overlay(bucket, n)
  {
    if n == 0 {
    } else {
      BlobKeyInjective(id, n);
      OverlayIgnores(bucket, id, data, n - 1);
    }
  }

  /** A segment newer than all others is laid over them. */
  lemma OverlayLands(bucket: Bucket, id: nat, data: Blob)
    requires BucketReadable(bucket) && WellTagged(data) && id > 0
    ensures Overlay(bucket[BlobKey(id) := data], id) == Overlay(bucket, id - 1) + UntagAll(data)
  {
    OverlayIgnores(bucket, id, data, id - 1);
    assert bucket[BlobKey(id) := data][BlobKey(id)] == data;
  }

  /** A freeze hides nothing, provided that the frozen buffer it replaces is empty or already
      stored as the newest segment. */
  lemma FreezeKeepsVisible(s: Store)
    requires Readable(s)
    requires !Written(s.bucket, s.flushID + 1)
    requires s.frozen.Some? ==>
               s.flushID > 0 && Written(s.bucket, s.flushID) && s.bucket[BlobKey(s.flushID)] == s.frozen.value
    ensures Readable(AfterFreeze(s))
    ensures forall d: Durability :: Visible(AfterFreeze(s), d) == Visible(s, d)
  {
    var under := Overlay(s.bucket, s.flushID);
    assert Overlay(s.bucket, s.flushID + 1) == under;
    assert under + FrozenLayer(s) == under;
  }

  lemma WriteLandsOnTop(s: Store)
    requires Readable(s)
    requires s.flushID > 0 && s.frozen.Some? && !Written(s.bucket, s.flushID)
    ensures var w := AfterWrite(s, s.flushID, s.frozen.value);
            Readable(w) && Visible(w, Remote) == Visible(s, Remote) + FrozenLayer(s)
  {
    OverlayLands(s.bucket, s.flushID, s.frozen.value);
  }

  /** Storing the frozen buffer as the newest segment and then dropping it hides nothing. */
  lemma WriteAndClearKeepMemory(s: Store)
    requires Readable(s)
    requires s.flushID > 0 && s.frozen.Some? && !Written(s.bucket, s.flushID)
    ensures var w := AfterWrite(s, s.flushID, s.frozen.value);
            && Readable(w) && Readable(AfterClear(w))
            && Visible(w, Memory) == Visible(s, Memory)
            && Visible(AfterClear(w), Memory) == Visible(s, Memory)
            && Visible(w, Remote) == Visible(s, Remote) + FrozenLayer(s)
  {
    WriteLandsOnTop(s);
    var under, top := Visible(s, Remote), FrozenLayer(s);
    LayerTwice(under, top);
  }

  /** What one whole `Flush` does to the store when nothing interleaves with it. */
  function AfterFlush(s: Store, writeFails: bool, landed: bool): Store {
    if s.buffer == map[] then s
    else if writeFails && !landed then AfterFreeze(s)
    else
      var stored := AfterWrite(AfterFreeze(s), s.flushID + 1, TagAll(s.buffer));
      if writeFails then stored else AfterClear(stored)
  }

  /** A flush of a store that no failure has left its mark on changes no Memory read, and, if its
      segment is stored, makes every Memory read of before a Remote read of after. */
  lemma FlushKeepsMemory(s: Store, writeFails: bool, landed: bool)
    requires Readable(s) && s.frozen == None && !Written(s.bucket, s.flushID + 1)
    ensures var s' := AfterFlush(s, writeFails, landed);
            && Readable(s')
            && Visible(s', Memory) == Visible(s, Memory)
            && (!writeFails || landed || s.buffer == map[] ==> Visible(s', Remote) == Visible(s, Memory))
  {
    assert Visible(s, Memory) == Visible(s, Remote) + s.buffer;
    if s.buffer == map[] {
    } else {
      var f := AfterFreeze(s);
      FreezeKeepsVisible(s);
      assert FrozenLayer(f) == s.buffer && !Written(f.bucket, f.flushID);
      WriteAndClearKeepMemory(f);
    }
  }

  lemma StoredFlushAdds(s: Store)
    requires Readable(s)
    ensures var w := AfterWrite(AfterFreeze(s), s.flushID + 1, TagAll(s.buffer));
            && Readable(w)
            && Visible(w, Remote) == Visible(s, Remote) + s.buffer
            && Visible(w, Memory) == Visible(w, Remote)
            && Visible(AfterClear(w), Memory) == Visible(w, Remote)
  {
    var top := Visible(s, Remote) + s.buffer;
    OverlayLands(s.bucket, s.flushID + 1, TagAll(s.buffer));
    LayerTwice(Visible(s, Remote), s.buffer);
    LayerTwice(top, map[]);
  }

  lemma UnstoredFlushAdds(s: Store)
    requires Readable(s) && !Written(s.bucket, s.flushID + 1)
    ensures var f := AfterFreeze(s);
            && Readable(f)
            && Visible(f, Remote) == Visible(s, Remote)
            && Visible(f, Memory) == Visible(s, Remote) + s.buffer
  {
    assert Overlay(s.bucket, s.flushID + 1) == Overlay(s.bucket, s.flushID);
    LayerTwice(Visible(s, Remote) + s.buffer, map[]);
  }

  /** Whatever an earlier failure has left frozen: a flush of a non-empty buffer whose segment is
      stored adds exactly the active buffer to what Remote reads see, and one whose segment is not
      stored adds nothing. What was left frozen is in neither. */
  lemma FlushAddsBufferOnly(s: Store, writeFails: bool, landed: bool)
    requires Readable(s) && !Written(s.bucket, s.flushID + 1)
    ensures var s' := AfterFlush(s, writeFails, landed);
            && Readable(s')
            && s'.buffer == map[]
            && Visible(s', Remote) == Visible(s, Remote) + (if writeFails && !landed then map[] else s.buffer)
            && (s.buffer != map[] ==> Visible(s', Memory) == Visible(s, Remote) + s.buffer)
            && (s.buffer == map[] ==> s' == s)
  {
    LayerTwice(Visible(s, Remote), map[]);
    if s.buffer == map[] {
      assert Visible(s, Remote) + map[] == Visible(s, Remote);
    } else if writeFails && !landed {
      UnstoredFlushAdds(s);
      assert Visible(s, Remote) + map[] == Visible(s, Remote);
    } else {
      StoredFlushAdds(s);
    }
  }

  datatype Snapshot = Nothing | Taken(id: nat, data: Blob)

  /** The struct and its methods. Each method is one critical section under `mu`, except
      `Flush`, which is run here without interference; the step system of GoProtocol interleaves
      the same sections. */
  class KVStore {
    var buffer: Buffer
    var immutableBuf: Option<Blob>
    var flushID: nat
    var bucket: Bucket

    ghost function State(): Store
      reads this
    {
      Store(buffer, immutableBuf, flushID, bucket)
    }

    constructor ()
      ensures State() == EMPTY_STORE
    {
      buffer, immutableBuf, flushID, bucket := map[], None, 0, map[];
    }

    method Put(key: Key, value: Value)
      modifies this
      ensures State() == AfterPut(old(State()), key, Some(value))
    {
      buffer := buffer[key := Some(value)];
    }

    method Delete(key: Key)
      modifies this
      ensures State() == AfterPut(old(State()), key, None)
    {
      buffer := buffer[key := None];
    }

    /** `None` is the KEY_NOT_FOUND error; absent options mean a Remote read. */
    method Get(key: Key, opts: Option<Durability>) returns (r: Entry)
      requires Readable(State())
      ensures r == Read(Visible(State(), if opts.Some? then opts.value else Remote), key)
    {
      var durability := Remote;
      if opts.Some? {
        durability := opts.value;
      }
      GetReadsVisible(State(), key, durability);
      if durability == Memory {
        if key in buffer {
          return buffer[key];
        }
        if immutableBuf.Some? {
          if key in immutableBuf.value {
            var val := immutableBuf.value[key];
            if val[0] == 0 {
              return None;
            }
            return Some(val[1..]);
          }
        }
      }
      var i := flushID;
      while i > 0
        invariant 0 <= i <= flushID
        invariant Scan(bucket, i, key) == Scan(bucket, flushID, key)
      {
        var blobKey := BlobKey(i);
        if blobKey in bucket {
          var kvPairs := bucket[blobKey];
          if key in kvPairs {
            var val := kvPairs[key];
            if val[0] == 0 {
              return None;
            }
            return Some(val[1..]);
          }
        }
        i := i - 1;
      }
      return None;
    }

    /** The first loop of `Flush`: a tag byte before each value. */
    method Encode() returns (bufMap: Blob)
      ensures bufMap == TagAll(buffer)
    {
      bufMap := map[];
      var rest := buffer.Keys;
      while rest != {}
        invariant bufMap.Keys == buffer.Keys - rest && rest <= buffer.Keys
        invariant forall k | k in bufMap :: bufMap[k] == Tag(buffer[k])
        decreases rest
      {
        var k :| k in rest;
        var v: Tagged := [0];
        if buffer[k] != None {
          v := v[0 := 1];
          v := v + buffer[k].value;
        }
        bufMap, rest := bufMap[k := v], rest - {k};
      }
    }

    /** The second loop: a copy of the encoded map. */
    static method Copy(bufMap: Blob) returns (frozen: Blob)
      ensures frozen == bufMap
    {
      frozen := map[];
      var rest := bufMap.Keys;
      while rest != {}
        invariant frozen.Keys == bufMap.Keys - rest && rest <= bufMap.Keys
        invariant forall k | k in frozen :: frozen[k] == bufMap[k]
        decreases rest
      {
        var k :| k in rest;
        frozen, rest := frozen[k := bufMap[k]], rest - {k};
      }
    }

    /** The first critical section of `Flush`, with both of its loops. */
    method Freeze() returns (taken: Snapshot)
      modifies this
      ensures old(buffer) == map[] ==> taken == Nothing && State() == old(State())
      ensures old(buffer) != map[] ==>
                && State() == AfterFreeze(old(State()))
                && taken == Taken(flushID, TagAll(old(buffer)))
    {
      if |buffer| == 0 {
        return Nothing;
      }
      var bufMap := Encode();
      buffer := map[];
      flushID := flushID + 1;
      var frozen := Copy(bufMap);
      immutableBuf := Some(frozen);
      return Taken(flushID, bufMap);
    }

    /** A write that fails may have stored its object all the same. */
    method WriteBlob(id: nat, data: Blob, writeFails: bool, landed: bool) returns (ok: bool)
      modifies this`bucket
      ensures ok == !writeFails
      ensures State() == if ok || landed then AfterWrite(old(State()), id, data) else old(State())
    {
      if !writeFails || landed {
        bucket := bucket[BlobKey(id) := data];
      }
      return !writeFails;
    }

    method Clear()
      modifies this`immutableBuf
      ensures State() == AfterClear(old(State()))
    {
      immutableBuf := None;
    }

    /** From a store that no failure has left its mark on: a successful flush makes every Memory read
        of before a Remote read of after, and no flush changes a Memory read. */
    method Flush(writeFails: bool, landed: bool) returns (ok: bool)
      modifies this
      ensures State() == AfterFlush(old(State()), writeFails, landed)
      ensures ok == (old(buffer) == map[] || !writeFails)
      ensures old(Readable(State()) && immutableBuf == None && !Written(bucket, flushID + 1)) ==>
                && Readable(State())
                && (ok || landed ==> Visible(State(), Remote) == old(Visible(State(), Memory)))
                && Visible(State(), Memory) == old(Visible(State(), Memory))
    {
      ghost var before := State();
      if Readable(before) && before.frozen == None && !Written(before.bucket, before.flushID + 1) {
        FlushKeepsMemory(before, writeFails, landed);
      }
      var taken := Freeze();
      if taken == Nothing {
        return true;
      }
      ok := WriteBlob(taken.id, taken.data, writeFails, landed);
      if !ok {
        return;
      }
      Clear();
    }
  }
}
