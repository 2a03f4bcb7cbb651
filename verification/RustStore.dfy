/** The Rust store: its two buffers, its object store, and its methods. Segment identifiers are
    naturals in the order of their ULIDs. */
module RustStore {
  import opened Options
  import opened KeyValue

  /** How `write_internal` empties the frozen buffer: `Take` (as shipped) moves it out before the
      write, `Clone` (the commented-out line) leaves it until the flush clears it. */
  datatype Form = Take | Clone

  type Objects = map<nat, Buffer>

  datatype Store = Store(buf: Buffer, imm: Buffer, objects: Objects)

  const EMPTY_STORE := Store(map[], map[], map[])

  /** The segments with identifiers below `n`, newer laid over older. */
  ghost function Overlay(objects: Objects, n: nat): Buffer {
    if n == 0 then map[]
    else if n - 1 in objects then Overlay(objects, n - 1) + objects[n - 1]
    else Overlay(objects, n - 1)
  }

  /** `ids` is an ascending listing of the segments below `n`. */
  ghost predicate Lists(ids: seq<nat>, objects: Objects, n: nat) {
    && (forall i, j | 0 <= i < j < |ids| :: ids[i] < ids[j])
    && (forall id :: id in ids <==> id in objects && id < n)
  }

  ghost predicate ListsAll(ids: seq<nat>, objects: Objects) {
    && (forall i, j | 0 <= i < j < |ids| :: ids[i] < ids[j])
    && (forall id :: id in ids <==> id in objects)
  }

  ghost predicate Below(objects: Objects, n: nat) {
    forall id | id in objects :: id < n
  }

  /** The loop over a listing, newest first; a segment that is gone counts as empty. */
  function ReadListed(objects: Objects, ids: seq<nat>, k: Key): Entry {
    if ids == [] then None
    else
      var id := ids[|ids| - 1];
      if id in objects && k in objects[id] then objects[id][k]
      else ReadListed(objects, ids[..|ids| - 1], k)
  }

  lemma {:induction false} ReadListedIsOverlay(objects: Objects, ids: seq<nat>, n: nat, k: Key)
    requires Lists(ids, objects, n)
    ensures ReadListed(objects, ids, k) == Read(Overlay(objects, n), k)
  {
    assert forall i | 0 <= i < |ids| :: ids[i] in ids;
    if n > 0 && n - 1 in objects {
      assert n - 1 in ids;
      assert ids[|ids| - 1] == n - 1;
      var rest := ids[..|ids| - 1];
      assert Lists(rest, objects, n - 1) by {
        forall id ensures id in rest <==> id in objects && id < n - 1 {
          if id in objects && id < n - 1 {
            assert id in ids;
          }
        }
      }
      ReadListedIsOverlay(objects, rest, n - 1, k);
    } else if n > 0 {
      ReadListedIsOverlay(objects, ids, n - 1, k);
    }
  }

  /** An ascending listing of everything reads as the overlay of everything. */
  lemma ListingReadsAll(objects: Objects, ids: seq<nat>, n: nat, k: Key)
    requires ListsAll(ids, objects) && Below(objects, n)
    ensures ReadListed(objects, ids, k) == Read(Overlay(objects, n), k)
  {
    ReadListedIsOverlay(objects, ids, n, k);
  }

  lemma {:induction false} OverlayIgnores(objects: Objects, id: nat, content: Buffer, n: nat)
    requires id >= n
    ensures Overlay(objects[id := content], n) == Overlay(objects, n)
  {
    if n == 0 {
    } else {
      OverlayIgnores(objects, id, content, n - 1);
    }
  }

  lemma {:induction false} OverlayStops(objects: Objects, m: nat, n: nat)
    requires m <= n && Below(objects, m)
    ensures Overlay(objects, n) == Overlay(objects, m)
  {
    if m == n {
    } else {
      OverlayStops(objects, m, n - 1);
    }
  }

  /** A segment newer than all others is laid over them. */
  lemma OverlayLands(objects: Objects, id: nat, content: Buffer)
    requires Below(objects, id)
    ensures Overlay(objects[id := content], id + 1) == Overlay(objects, id) + content
  {
    OverlayIgnores(objects, id, content, id);
  }

  function Freeze(s: Store): Store {
    if s.buf != map[] && s.imm == map[] then s.(buf := map[], imm := s.buf) else s
  }

  function Hand(s: Store, form: Form): Store {
    if form.Take? then s.(imm := map[]) else s
  }

  function Land(s: Store, id: nat, content: Buffer): Store {
    s.(objects := s.objects[id := content])
  }

  function Clear(s: Store): Store {
    s.(imm := map[])
  }

  class EmbeddedKvStore {
    var buf: Buffer
    var immutableBuf: Buffer
    var store: Objects

    ghost function State(): Store
      reads this
    {
      Store(buf, immutableBuf, store)
    }

    constructor ()
      ensures State() == EMPTY_STORE
    {
      buf, immutableBuf, store := map[], map[], map[];
    }

    method Put(key: Key, value: Value)
      modifies this`buf
      ensures State() == old(State()).(buf := old(buf)[key := Some(value)])
    {
      buf := buf[key := Some(value)];
    }

    method Delete(key: Key)
      modifies this`buf
      ensures State() == old(State()).(buf := old(buf)[key := None])
    {
      buf := buf[key := None];
    }

    method FreezeInternal() returns (didFreeze: bool)
      modifies this
      ensures didFreeze == old(buf != map[] && immutableBuf == map[])
      ensures State() == Freeze(old(State()))
    {
      didFreeze := |buf| != 0 && |immutableBuf| == 0;
      if didFreeze {
        immutableBuf := buf;
        buf := map[];
      }
    }

    /** `id` is the fresh ULID. A put that fails may have stored its object all the same. */
    method WriteInternal(form: Form, id: nat, putFails: bool, landed: bool) returns (ok: bool)
      modifies this
      ensures ok == (old(immutableBuf) == map[] || !putFails)
      ensures State() == if old(immutableBuf) == map[] then old(State())
                         else if putFails && !landed then Hand(old(State()), form)
                         else Land(Hand(old(State()), form), id, old(immutableBuf))
    {
      if |immutableBuf| == 0 {
        return true;
      }
      var content := immutableBuf;
      if form == Take {
        immutableBuf := map[];
      }
      if !putFails || landed {
        store := store[id := content];
      }
      return !putFails;
    }

    /** `listing` is what the object store lists under "data/". */
    method Get(key: Key, level: Durability, listing: seq<nat>, ghost n: nat) returns (r: Entry)
      requires ListsAll(listing, store) && Below(store, n)
      ensures r == Read(if level.Memory? then Overlay(store, n) + immutableBuf + buf else Overlay(store, n), key)
    {
      ListingReadsAll(store, listing, n, key);
      if level == Memory {
        if key in buf {
          return buf[key];
        }
        if key in immutableBuf {
          return immutableBuf[key];
        }
      }
      var i := |listing|;
      assert listing[..i] == listing;
      while i > 0
        invariant 0 <= i <= |listing|
        invariant ReadListed(store, listing, key) == ReadListed(store, listing[..i], key)
      {
        i := i - 1;
        assert listing[..i + 1][..i] == listing[..i];
        var data := if listing[i] in store then store[listing[i]] else map[];
        if key in data {
          return data[key];
        }
      }
      return None;
    }

    /** A flush that nothing interferes with sends one buffer: the frozen one if an earlier failure
        left it behind, else `buf`. It becomes the newest segment, whole or not at all, and only a
        failed write in the shipped form loses it. */
    method Flush(form: Form, id: nat, putFails: bool, landed: bool) returns (ok: bool)
      requires Below(store, id)
      modifies this
      ensures ok == (!putFails || old(buf == map[] && immutableBuf == map[]))
      ensures var sent := old(if immutableBuf != map[] then immutableBuf else buf);
              && buf == old(if immutableBuf != map[] then buf else map[])
              && immutableBuf == (if ok || form.Take? then map[] else sent)
              && Overlay(store, id + 1) == old(Overlay(store, id)) + if ok || landed then sent else map[]
    {
      var didFreeze := FreezeInternal();
      ghost var content := immutableBuf;
      OverlayLands(store, id, content);
      OverlayStops(store, id, id + 1);
      ok := WriteInternal(form, id, putFails, landed);
      if !ok {
        return;
      }
      immutableBuf := map[];
    }
  }
}
