/** The buffered writer on Go slices: a slice is a backing array and a length, an append writes
    into spare capacity when there is some, and truncating keeps the backing array. */
module BufferedWriter {

  class Writer {
    var flushed: array<int>
    var flushedLen: nat
    var buffered: array<int>
    var bufferedLen: nat

    /** Everything ever appended. */
    ghost var appended: seq<int>

    ghost predicate Valid()
      reads this, flushed, buffered
    {
      && flushed != buffered
      && flushedLen <= flushed.Length
      && bufferedLen <= buffered.Length
      && Flushed() + Buffered() == appended
    }

    ghost function Flushed(): seq<int>
      requires flushedLen <= flushed.Length
      reads this, flushed
    {
      flushed[..flushedLen]
    }

    ghost function Buffered(): seq<int>
      requires bufferedLen <= buffered.Length
      reads this, buffered
    {
      buffered[..bufferedLen]
    }

    constructor ()
      ensures Valid() && fresh(flushed) && fresh(buffered)
      ensures appended == []
    {
      flushed, flushedLen := new int[0], 0;
      buffered, bufferedLen := new int[0], 0;
      appended := [];
    }

    /** `spare` is the capacity that the runtime adds when it has to grow. */
    method Append(x: int, spare: nat)
      requires Valid()
      modifies this, buffered
      ensures Valid() && (buffered == old(buffered) || fresh(buffered)) && flushed == old(flushed)
      ensures Flushed() == old(Flushed()) && Buffered() == old(Buffered()) + [x]
      ensures appended == old(appended) + [x]
    {
      ghost var was := Buffered();
      buffered := Grow(buffered, bufferedLen, 1, spare);
      buffered[bufferedLen] := x;
      bufferedLen := bufferedLen + 1;
      appended := appended + [x];
      assert Buffered() == was + [x];
    }

    /** Moves all that is buffered behind what is flushed and truncates the buffer in place. */
    method Flush(spare: nat)
      requires Valid()
      modifies this, flushed
      ensures Valid() && (flushed == old(flushed) || fresh(flushed)) && buffered == old(buffered)
      ensures Flushed() == old(Flushed()) + old(Buffered()) && Buffered() == []
      ensures appended == old(appended)
    {
      ghost var was := Flushed();
      flushed := Grow(flushed, flushedLen, bufferedLen, spare);
      var i := 0;
      while i < bufferedLen
        invariant 0 <= i <= bufferedLen
        invariant flushed[..flushedLen + i] == was + buffered[..i]
        modifies flushed
      {
        flushed[flushedLen + i] := buffered[i];
        i := i + 1;
      }
      flushedLen := flushedLen + bufferedLen;
      bufferedLen := 0;
    }

    method GetLength() returns (n: nat)
      requires Valid()
      ensures n == |appended|
    {
      n := flushedLen + bufferedLen;
    }
  }

  /** The backing array for `more` elements after the first `len`: the same one when they fit. */
  method Grow(a: array<int>, len: nat, more: nat, spare: nat) returns (b: array<int>)
    requires len <= a.Length
    ensures len + more <= b.Length && b[..len] == a[..len]
    ensures b == a || fresh(b)
    ensures b == a <==> len + more <= a.Length
  {
    if len + more <= a.Length {
      return a;
    }
    b := new int[len + more + spare](i => 0);
    var i := 0;
    while i < len
      invariant 0 <= i <= len
      invariant b[..i] == a[..i]
      modifies b
    {
      b[i] := a[i];
      i := i + 1;
    }
  }

  // ----- Any sequence of calls -----

  /** `spare` is what the runtime adds if the call has to grow a slice. */
  datatype Call = Append(x: int, spare: nat) | Flush(spare: nat)

  datatype Contents = Contents(flushed: seq<int>, buffered: seq<int>)

  /** What a writer without slices would hold after the calls. */
  function After(c: Contents, calls: seq<Call>): Contents {
    if calls == [] then c
    else
      var before := After(c, calls[..|calls| - 1]);
      match calls[|calls| - 1]
      case Append(x, _) => before.(buffered := before.buffered + [x])
      case Flush(_) => Contents(before.flushed + before.buffered, [])
  }

  function Appended(calls: seq<Call>): seq<int> {
    if calls == [] then []
    else Appended(calls[..|calls| - 1]) + match calls[|calls| - 1] case Append(x, _) => [x] case Flush(_) => []
  }

  /** Flushed data is never changed, and nothing is lost, doubled or reordered. */
  lemma {:induction false} CallsKeepOrder(c: Contents, calls: seq<Call>)
    ensures c.flushed <= After(c, calls).flushed
    ensures After(c, calls).flushed + After(c, calls).buffered == c.flushed + c.buffered + Appended(calls)
  {
    if calls == [] {
    } else {
      var front, last := calls[..|calls| - 1], calls[|calls| - 1];
      var before, start := After(c, front), c.flushed + c.buffered;
      CallsKeepOrder(c, front);
      if last.Append? {
        assert before.flushed + (before.buffered + [last.x]) == before.flushed + before.buffered + [last.x];
        assert start + Appended(front) + [last.x] == start + (Appended(front) + [last.x]);
      } else {
        assert before.flushed + before.buffered + [] == before.flushed + before.buffered;
        assert Appended(front) + [] == Appended(front);
      }
    }
  }

  /** For every sequence of calls and every growth policy the slices hold what a writer without
      shared backing arrays would: appends that reuse the truncated array never reach flushed data. */
  method FlushedDataSurvives(w: Writer, calls: seq<Call>)
    requires w.Valid()
    modifies w, w.flushed, w.buffered
    ensures w.Valid()
    ensures Contents(w.Flushed(), w.Buffered()) == After(old(Contents(w.Flushed(), w.Buffered())), calls)
    ensures old(w.Flushed()) <= w.Flushed()
    ensures w.Flushed() + w.Buffered() == old(w.Flushed() + w.Buffered()) + Appended(calls)
  {
    ghost var c := Contents(w.Flushed(), w.Buffered());
    var i := 0;
    while i < |calls|
      invariant 0 <= i <= |calls|
      invariant w.Valid()
      invariant w.flushed == old(w.flushed) || fresh(w.flushed)
      invariant w.buffered == old(w.buffered) || fresh(w.buffered)
      invariant Contents(w.Flushed(), w.Buffered()) == After(c, calls[..i])
    {
      assert calls[..i + 1][..i] == calls[..i];
      match calls[i] {
        case Append(x, spare) => w.Append(x, spare);
        case Flush(spare) => w.Flush(spare);
      }
      i := i + 1;
    }
    assert calls[..i] == calls;
    CallsKeepOrder(c, calls);
  }
}
