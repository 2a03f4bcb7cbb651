/** Keys, values and the histories of writes that every key-value model here shares. */
module KeyValue {
  import opened Options

  newtype Byte = x: int | 0 <= x < 256

  /** A string of Unicode scalar values, that is, a valid UTF-8 string. */
  type Key = string
  type Value = seq<Byte>

  /** What a layer holds for a key: a value, or a tombstone (`None`) left by a delete.
      The same type is the answer of a read, where `None` means "not found". */
  type Entry = Option<Value>

  type Buffer = map<Key, Entry>

  /** One accepted Put (`Some` value) or Delete (`None`). */
  datatype Op = Op(key: Key, entry: Entry)

  /** Where a read may look. */
  datatype Durability = Remote | Memory

  function Read(m: Buffer, k: Key): Entry {
    if k in m then m[k] else None
  }

  /** The entry of the last operation on `k` in `h`, or "not found". */
  function LastPut(h: seq<Op>, k: Key): Entry {
    if h == [] then None
    else if h[|h| - 1].key == k then h[|h| - 1].entry
    else LastPut(h[..|h| - 1], k)
  }

  /** The buffer that the operations of `h` leave behind when they start from an empty one. */
  function Replay(h: seq<Op>): Buffer {
    if h == [] then map[] else Replay(h[..|h| - 1])[h[|h| - 1].key := h[|h| - 1].entry]
  }

  ghost predicate Touches(h: seq<Op>, k: Key) {
    exists i | 0 <= i < |h| :: h[i].key == k
  }

  lemma {:induction false} ReplaySnoc(h: seq<Op>, op: Op)
    ensures Replay(h + [op]) == Replay(h)[op.key := op.entry]
  {
    assert (h + [op])[..|h|] == h;
  }

  /** A replayed buffer holds exactly the keys written, each with its last entry. */
  lemma {:induction false} ReplayIsLastPut(h: seq<Op>, k: Key)
    ensures k in Replay(h) <==> Touches(h, k)
    ensures Read(Replay(h), k) == LastPut(h, k)
  {
    if h == [] {
    } else {
      var front, last := h[..|h| - 1], h[|h| - 1];
      ReplayIsLastPut(front, k);
      if Touches(front, k) {
        var i :| 0 <= i < |front| && front[i].key == k;
        assert h[i].key == k;
      }
      if Touches(h, k) && last.key != k {
        var i :| 0 <= i < |h| && h[i].key == k;
        assert front[i].key == k;
      }
    }
  }

  /** Reading after `a` then `b`: `b` decides for the keys it touches, `a` for the others. */
  lemma {:induction false} LastPutConcat(a: seq<Op>, b: seq<Op>, k: Key)
    ensures LastPut(a + b, k) == if Touches(b, k) then LastPut(b, k) else LastPut(a, k)
  {
    if b == [] {
      assert a + b == a;
    } else {
      var front, last := b[..|b| - 1], b[|b| - 1];
      assert (a + b)[..|a + b| - 1] == a + front;
      LastPutConcat(a, front, k);
      if Touches(front, k) {
        var i :| 0 <= i < |front| && front[i].key == k;
        assert b[i].key == k;
      }
      if Touches(b, k) && last.key != k {
        var i :| 0 <= i < |b| && b[i].key == k;
        assert front[i].key == k;
      }
    }
  }

  /** Layering buffers is replaying their histories one after the other. */
  lemma ReadLayered(under: Buffer, b: seq<Op>, k: Key)
    ensures Read(under + Replay(b), k) == if Touches(b, k) then LastPut(b, k) else Read(under, k)
  {
    ReplayIsLastPut(b, k);
  }

  lemma ReplayEmpty(h: seq<Op>)
    ensures Replay(h) == map[] <==> h == []
  {
    if h != [] {
      assert h[|h| - 1].key in Replay(h);
    }
  }

  lemma LayerTwice(under: Buffer, top: Buffer)
    ensures under + top + top == under + top
    ensures under + top + map[] == under + top
  {
  }

  lemma {:induction false} ReplayConcat(a: seq<Op>, b: seq<Op>)
    ensures Replay(a + b) == Replay(a) + Replay(b)
  {
    if b == [] {
      assert a + b == a;
    } else {
      assert (a + b)[..|a + b| - 1] == a + b[..|b| - 1];
      ReplayConcat(a, b[..|b| - 1]);
    }
  }
}
