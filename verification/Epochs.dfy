/** A history of writes cut into epochs at its freeze points, and what is left of it when some
    epochs are missing. Both stores are described in these terms. */
module Epochs {
  import opened Options
  import opened KeyValue

  function Mark(marks: seq<nat>, i: nat): nat
    requires i <= |marks|
  {
    if i == 0 then 0 else marks[i - 1]
  }

  /** `marks[i - 1]` is the number of writes before the `i`th freeze; no epoch is empty. */
  ghost predicate MarksOk(h: seq<Op>, marks: seq<nat>) {
    && (forall i, j | 0 <= i < j <= |marks| :: Mark(marks, i) < Mark(marks, j))
    && (forall i | 0 <= i <= |marks| :: Mark(marks, i) <= |h|)
  }

  /** The writes between freezes `i - 1` and `i`. */
  ghost function Epoch(h: seq<Op>, marks: seq<nat>, i: nat): seq<Op>
    requires MarksOk(h, marks) && 1 <= i <= |marks|
  {
    h[Mark(marks, i - 1)..Mark(marks, i)]
  }

  /** The writes since the last freeze. */
  ghost function Tail(h: seq<Op>, marks: seq<nat>): seq<Op>
    requires MarksOk(h, marks)
  {
    h[Mark(marks, |marks|)..]
  }

  lemma MarksAfterWrite(h: seq<Op>, marks: seq<nat>, op: Op)
    requires MarksOk(h, marks)
    ensures MarksOk(h + [op], marks)
    ensures forall i | 1 <= i <= |marks| :: Epoch(h + [op], marks, i) == Epoch(h, marks, i)
    ensures Tail(h + [op], marks) == Tail(h, marks) + [op]
  {
  }

  lemma MarksAfterFreeze(h: seq<Op>, marks: seq<nat>)
    requires MarksOk(h, marks) && Tail(h, marks) != []
    ensures var m := marks + [|h|];
            && MarksOk(h, m)
            && (forall i | 1 <= i <= |marks| :: Epoch(h, m, i) == Epoch(h, marks, i))
            && Epoch(h, m, |m|) == Tail(h, marks)
            && Tail(h, m) == []
  {
    var m := marks + [|h|];
    assert forall i | 0 <= i <= |marks| :: Mark(m, i) == Mark(marks, i);
  }

  /** The history up to the end of epoch `n`, as if the epochs in `lost` had never been accepted. */
  ghost function Kept(h: seq<Op>, marks: seq<nat>, lost: set<nat>, n: nat): seq<Op>
    requires MarksOk(h, marks) && n <= |marks|
  {
    if n == 0 then []
    else if n in lost then Kept(h, marks, lost, n - 1)
    else Kept(h, marks, lost, n - 1) + Epoch(h, marks, n)
  }

  /** Later epochs do not matter. */
  lemma {:induction false} KeptIgnores(h: seq<Op>, marks: seq<nat>, lost: set<nat>, later: nat, n: nat)
    requires MarksOk(h, marks) && n <= |marks| && n < later
    ensures Kept(h, marks, lost - {later}, n) == Kept(h, marks, lost, n)
  {
    if n == 0 {
    } else {
      KeptIgnores(h, marks, lost, later, n - 1);
    }
  }

  /** Epochs depend on the history before their end only. */
  lemma {:induction false} KeptExtends(
    h: seq<Op>, marks: seq<nat>, h': seq<Op>, marks': seq<nat>, lost: set<nat>, n: nat)
    requires MarksOk(h, marks) && MarksOk(h', marks') && n <= |marks| && marks <= marks'
    requires forall i | 1 <= i <= n :: Epoch(h', marks', i) == Epoch(h, marks, i)
    ensures Kept(h', marks', lost, n) == Kept(h, marks, lost, n)
  {
    if n == 0 {
    } else {
      KeptExtends(h, marks, h', marks', lost, n - 1);
    }
  }

  lemma EpochEnds(h: seq<Op>, marks: seq<nat>, n: nat)
    requires MarksOk(h, marks) && 1 <= n <= |marks|
    ensures h[..Mark(marks, n - 1)] + Epoch(h, marks, n) == h[..Mark(marks, n)]
  {
  }

  lemma {:induction false} KeptAll(h: seq<Op>, marks: seq<nat>, lost: set<nat>, n: nat)
    requires MarksOk(h, marks) && n <= |marks|
    requires forall i | 1 <= i <= n :: i !in lost
    ensures Kept(h, marks, lost, n) == h[..Mark(marks, n)]
  {
    if n == 0 {
    } else {
      KeptAll(h, marks, lost, n - 1);
      EpochEnds(h, marks, n);
    }
  }

  lemma EpochDecides(h: seq<Op>, marks: seq<nat>, lost: set<nat>, n: nat, k: Key)
    requires MarksOk(h, marks) && 1 <= n <= |marks|
    ensures LastPut(Kept(h, marks, lost, n), k)
            == if n !in lost && Touches(Epoch(h, marks, n), k) then LastPut(Epoch(h, marks, n), k)
               else LastPut(Kept(h, marks, lost, n - 1), k)
  {
    LastPutConcat(Kept(h, marks, lost, n - 1), Epoch(h, marks, n), k);
  }

  lemma PrefixDecides(h: seq<Op>, marks: seq<nat>, n: nat, k: Key)
    requires MarksOk(h, marks) && 1 <= n <= |marks|
    ensures LastPut(h[..Mark(marks, n)], k)
            == if Touches(Epoch(h, marks, n), k) then LastPut(Epoch(h, marks, n), k)
               else LastPut(h[..Mark(marks, n - 1)], k)
  {
    EpochEnds(h, marks, n);
    LastPutConcat(h[..Mark(marks, n - 1)], Epoch(h, marks, n), k);
  }

  /** The newest of the first `n` epochs that wrote `k`, or zero. */
  ghost function NewestOf(h: seq<Op>, marks: seq<nat>, n: nat, k: Key): (e: nat)
    requires MarksOk(h, marks) && n <= |marks|
    ensures e <= n && (e > 0 ==> Touches(Epoch(h, marks, e), k))
    ensures forall i | e < i <= n :: !Touches(Epoch(h, marks, i), k)
  {
    if n == 0 || Touches(Epoch(h, marks, n), k) then n else NewestOf(h, marks, n - 1, k)
  }

  /** Missing epochs matter to a key only through the newest one that wrote it. */
  lemma {:induction false} KeptOfKey(h: seq<Op>, marks: seq<nat>, lost: set<nat>, n: nat, k: Key)
    requires MarksOk(h, marks) && n <= |marks|
    ensures var e := NewestOf(h, marks, n, k);
            && LastPut(h[..Mark(marks, n)], k) == (if e == 0 then None else LastPut(Epoch(h, marks, e), k))
            && (e !in lost || e == 0 ==> LastPut(Kept(h, marks, lost, n), k) == LastPut(h[..Mark(marks, n)], k))
  {
    if n == 0 {
    } else {
      EpochDecides(h, marks, lost, n, k);
      PrefixDecides(h, marks, n, k);
      if !Touches(Epoch(h, marks, n), k) {
        KeptOfKey(h, marks, lost, n - 1, k);
      }
    }
  }

  /** `k` is hidden when the newest epoch that wrote it is missing, the writes since the last
      freeze do not hold it, and what is left answers differently. */
  ghost predicate Hidden(h: seq<Op>, marks: seq<nat>, lost: set<nat>, k: Key)
    requires MarksOk(h, marks)
  {
    var e := NewestOf(h, marks, |marks|, k);
    && !Touches(Tail(h, marks), k)
    && e > 0 && e in lost
    && LastPut(Epoch(h, marks, e), k) != LastPut(Kept(h, marks, lost, |marks|), k)
  }

  lemma TailDecides(h: seq<Op>, marks: seq<nat>, k: Key)
    requires MarksOk(h, marks)
    ensures LastPut(h, k) == if Touches(Tail(h, marks), k) then LastPut(Tail(h, marks), k)
                             else LastPut(h[..Mark(marks, |marks|)], k)
  {
    assert h[..Mark(marks, |marks|)] + Tail(h, marks) == h;
    LastPutConcat(h[..Mark(marks, |marks|)], Tail(h, marks), k);
  }

  /** A read that misses some epochs is the last put exactly of the keys that are not hidden. */
  lemma ReadsLastPutUnlessHidden(h: seq<Op>, marks: seq<nat>, lost: set<nat>, k: Key)
    requires MarksOk(h, marks)
    ensures LastPut(Kept(h, marks, lost, |marks|) + Tail(h, marks), k) == LastPut(h, k)
            <==> !Hidden(h, marks, lost, k)
  {
    TailDecides(h, marks, k);
    LastPutConcat(Kept(h, marks, lost, |marks|), Tail(h, marks), k);
    KeptOfKey(h, marks, lost, |marks|, k);
  }

  lemma CutStep(h: seq<Op>, marks: seq<nat>, lost: set<nat>, n: nat, k: Key, below: nat) returns (cut: nat)
    requires MarksOk(h, marks) && 1 <= n <= |marks| && below <= |h|
    requires LastPut(Kept(h, marks, lost, n - 1), k) == LastPut(h[..below], k)
    ensures cut == below || cut == Mark(marks, n)
    ensures LastPut(Kept(h, marks, lost, n), k) == LastPut(h[..cut], k)
  {
    EpochDecides(h, marks, lost, n, k);
    PrefixDecides(h, marks, n, k);
    cut := if n !in lost && Touches(Epoch(h, marks, n), k) then Mark(marks, n) else below;
  }

  /** When the first `m` epochs are all there, reading what is left is reading the history up to
      some point not before their end. */
  lemma {:induction false} KeptIsSomeCut(h: seq<Op>, marks: seq<nat>, lost: set<nat>, m: nat, n: nat, k: Key)
    returns (cut: nat)
    requires MarksOk(h, marks) && m <= n <= |marks|
    requires Complete(lost, m)
    ensures Mark(marks, m) <= cut <= |h| && LastPut(Kept(h, marks, lost, n), k) == LastPut(h[..cut], k)
  {
    if n == m {
      KeptAll(h, marks, lost, n);
      cut := Mark(marks, n);
    } else {
      var below := KeptIsSomeCut(h, marks, lost, m, n - 1, k);
      cut := CutStep(h, marks, lost, n, k, below);
    }
  }

  // ----- How far back nothing is missing -----

  ghost predicate Complete(missing: set<nat>, m: nat) {
    forall i | 1 <= i <= m :: i !in missing
  }

  /** The first `count` writes lie in epochs of which none is missing. */
  ghost predicate Covered(marks: seq<nat>, missing: set<nat>, count: nat) {
    exists m | 0 <= m <= |marks| :: Complete(missing, m) && count <= Mark(marks, m)
  }
}
