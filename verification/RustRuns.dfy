/** Theorems over whole runs of the Rust store: its two kinds of read, what it loses, and its flush. */
module RustRuns {
  import opened Options
  import opened KeyValue
  import opened Epochs
  import opened RustStore
  import opened RustHistory
  import opened RustCalls
  import opened RustProtocol

  /** What one step does to the shared world, without the tasks. */
  ghost predicate WorldStep(w: World, w': World, form: Form, e: Effect, p: Phase, p': Phase) {
    && WorldOk(w, form, p) && Applies(w, e) && PhaseStep(e, w.store.imm, p, p')
    && w' == Apply(w, form, e) && WorldOk(w', form, p')
  }

  lemma RunWorldStep(run: seq<Config>, acts: seq<Action>, j: nat)
    requires IsRun(run, acts) && j < |acts|
    ensures acts[j].t < |run[j].pcs|
    ensures WorldStep(run[j].world, run[j + 1].world, run[0].form, EffectOf(run[j], acts[j]),
                      PhaseOf(run[j]), PhaseOf(run[j + 1]))
  {
    RunKeepsInv(run, acts, j);
    assert StepAt(run, acts, j);
    StepKeepsInv(run[j], acts[j], run[j + 1]);
    EffectIs(run[j], acts[j]);
  }

  lemma RunWorldOk(run: seq<Config>, acts: seq<Action>, j: nat)
    requires IsRun(run, acts) && j < |run|
    ensures WorldOk(run[j].world, run[0].form, PhaseOf(run[j]))
    ensures run[j].form == run[0].form && |run[j].pcs| == |run[0].pcs|
  {
    RunKeepsInv(run, acts, j);
  }

  // ----- What a run only adds to -----

  ghost predicate Grows(w: World, w': World) {
    && w.history <= w'.history && w.marks <= w'.marks && w.failures <= w'.failures
    && (forall i | 1 <= i <= |w.marks| && i !in w.missing :: i !in w'.missing)
  }

  lemma WorldGrows(w: World, w': World, form: Form, e: Effect, p: Phase, p': Phase)
    requires WorldStep(w, w', form, e, p, p')
    ensures Grows(w, w')
  {
  }

  lemma RunStepGrows(run: seq<Config>, acts: seq<Action>, j: nat)
    requires IsRun(run, acts) && j < |acts|
    ensures Grows(run[j].world, run[j + 1].world)
  {
    RunWorldStep(run, acts, j);
    WorldGrows(run[j].world, run[j + 1].world, run[0].form, EffectOf(run[j], acts[j]),
               PhaseOf(run[j]), PhaseOf(run[j + 1]));
  }

  lemma GrowsThrough(a: World, b: World, c: World)
    requires Grows(a, b) && Grows(b, c)
    ensures Grows(a, c)
  {
  }

  /** The history, the freeze points and the stored epochs only ever grow. */
  lemma {:induction false} RunGrows(run: seq<Config>, acts: seq<Action>, i: nat, j: nat)
    requires IsRun(run, acts) && i <= j < |run|
    ensures Grows(run[i].world, run[j].world)
    decreases j
  {
    if i == j {
    } else {
      RunGrows(run, acts, i, j - 1);
      RunStepGrows(run, acts, j - 1);
      GrowsThrough(run[i].world, run[j - 1].world, run[j].world);
    }
  }

  // ----- What is lost -----

  predicate Loses(form: Form, e: Effect) {
    form.Take? && e == Failed(false)
  }

  /** Only a put that fails without storing its object loses an epoch, only in the shipped form,
      and it loses exactly the one it was writing. */
  lemma OnlyFailedPutsLose(w: World, w': World, form: Form, e: Effect, p: Phase, p': Phase)
    requires WorldStep(w, w', form, e, p, p')
    ensures Lost(w') == Lost(w) + if Loses(form, e) then {|w.marks|} else {}
  {
    if e == Froze && w' != w {
      assert w.missing + {|w.marks| + 1} - {|w.marks| + 1} == w.missing;
    }
  }

  /** What is lost stays lost. */
  lemma {:induction false} LostForGood(run: seq<Config>, acts: seq<Action>, i: nat, j: nat)
    requires IsRun(run, acts) && i <= j < |run|
    ensures Lost(run[i].world) <= Lost(run[j].world)
    decreases j
  {
    if i == j {
    } else {
      LostForGood(run, acts, i, j - 1);
      RunWorldStep(run, acts, j - 1);
      OnlyFailedPutsLose(run[j - 1].world, run[j].world, run[0].form, EffectOf(run[j - 1], acts[j - 1]),
                         PhaseOf(run[j - 1]), PhaseOf(run[j]));
    }
  }

  // ----- Reading a listing -----

  lemma {:induction false} WriteOnce(objects: Objects, objects': Objects, ids: seq<nat>, k: Key)
    requires forall id | id in ids :: id in objects && id in objects' && objects'[id] == objects[id]
    ensures ReadListed(objects', ids, k) == ReadListed(objects, ids, k)
  {
    if ids == [] {
    } else {
      WriteOnce(objects, objects', ids[..|ids| - 1], k);
    }
  }

  ghost predicate TaskStep(c: Config, a: Action, c': Config, t: nat) {
    && IsStep(c, a, c')
    && ListingOk(c.world, At(c, t))
    && Below(c.world.store.objects, c.world.nextId)
    && (forall id | id in c.world.store.objects ::
          id in c'.world.store.objects && c'.world.store.objects[id] == c.world.store.objects[id])
  }

  lemma RunTaskStep(run: seq<Config>, acts: seq<Action>, j: nat, t: nat)
    requires IsRun(run, acts) && j < |acts|
    ensures TaskStep(run[j], acts[j], run[j + 1], t)
  {
    RunKeepsInv(run, acts, j);
    assert StepAt(run, acts, j);
    EffectIs(run[j], acts[j]);
    ObjectsOnlyGrow(run[j].world, run[j].form, EffectOf(run[j], acts[j]), PhaseOf(run[j]));
  }

  lemma SegmentsMove(c: Config, a: Action, c': Config, t: nat)
    requires IsStep(c, a, c') && At(c, t).GetSegments?
    requires InSegmentsOrDone(At(c', t))
    ensures At(c', t) == At(c, t)
            || (&& c'.world == c.world
                && At(c', t) == ReadOne(c.world.store.objects, At(c, t).key, At(c, t).durability, At(c, t).ids))
  {
  }

  predicate InSegments(pc: PC, k: Key) {
    pc.GetSegments? && pc.key == k
  }

  predicate InSegmentsOrDone(pc: PC) {
    pc.GetSegments? || (pc.Returned? && pc.result.Got?)
  }

  /** What a task that reads its listing will return. */
  ghost function Answer(w: World, pc: PC, k: Key): Entry
    requires InSegmentsOrDone(pc)
  {
    if pc.GetSegments? then ReadListed(w.store.objects, pc.ids, k) else pc.result.entry
  }

  /** The value that a task can still find does not change behind its back. */
  lemma SegmentsStep(c: Config, a: Action, c': Config, t: nat, k: Key)
    requires TaskStep(c, a, c', t)
    requires InSegments(At(c, t), k) && InSegmentsOrDone(At(c', t))
    ensures Answer(c'.world, At(c', t), k) == Answer(c.world, At(c, t), k)
  {
    SegmentsMove(c, a, c', t);
    WriteOnce(c.world.store.objects, c'.world.store.objects, At(c, t).ids, k);
  }

  lemma ListStep(c: Config, a: Action, c': Config, t: nat, k: Key)
    requires TaskStep(c, a, c', t)
    requires At(c, t).GetList? && At(c, t).key == k && InSegmentsOrDone(At(c', t))
    ensures a.List? && a.t == t
    ensures Answer(c'.world, At(c', t), k) == Read(Stored(c.world), k)
  {
    assert c'.world == c.world && At(c', t).GetSegments?;
    ListingReadsAll(c.world.store.objects, At(c', t).ids, c.world.nextId, k);
  }

  lemma RunListStep(run: seq<Config>, acts: seq<Action>, j: nat, t: nat, k: Key)
    requires IsRun(run, acts) && j < |acts|
    requires At(run[j], t).GetList? && At(run[j], t).key == k && InSegmentsOrDone(At(run[j + 1], t))
    ensures acts[j].List? && acts[j].t == t
    ensures Answer(run[j + 1].world, At(run[j + 1], t), k) == Read(Stored(run[j].world), k)
  {
    RunTaskStep(run, acts, j, t);
    ListStep(run[j], acts[j], run[j + 1], t, k);
  }

  lemma RunSegmentsStep(run: seq<Config>, acts: seq<Action>, j: nat, t: nat, k: Key)
    requires IsRun(run, acts) && j < |acts|
    requires InSegments(At(run[j], t), k) && InSegmentsOrDone(At(run[j + 1], t))
    ensures Answer(run[j + 1].world, At(run[j + 1], t), k) == Answer(run[j].world, At(run[j], t), k)
  {
    RunTaskStep(run, acts, j, t);
    SegmentsStep(run[j], acts[j], run[j + 1], t, k);
  }

  lemma {:induction false} ListingHoldsAnswer(
    run: seq<Config>, acts: seq<Action>, listed: nat, j: nat, t: nat, k: Key)
    requires IsRun(run, acts) && listed < j < |run|
    requires At(run[listed], t).GetList? && At(run[listed], t).key == k
    requires forall i | listed < i < j :: InSegments(At(run[i], t), k)
    requires InSegmentsOrDone(At(run[j], t))
    ensures Answer(run[j].world, At(run[j], t), k) == Read(Stored(run[listed].world), k)
    decreases j
  {
    if j == listed + 1 {
      RunListStep(run, acts, listed, t, k);
    } else {
      assert InSegments(At(run[j - 1], t), k);
      ListingHoldsAnswer(run, acts, listed, j - 1, t, k);
      RunSegmentsStep(run, acts, j - 1, t, k);
    }
  }

  /** A get reads segments one by one, while flushes add more; its answer was settled at its listing. */
  lemma ListedAnswer(run: seq<Config>, acts: seq<Action>, listed: nat, end: nat, t: nat, k: Key)
    requires IsRun(run, acts) && listed < end < |run|
    requires At(run[listed], t).GetList? && At(run[listed], t).key == k
    requires forall i | listed < i < end :: InSegments(At(run[i], t), k)
    requires At(run[end], t).Returned? && At(run[end], t).result.Got?
    ensures MarksOk(run[listed].world.history, run[listed].world.marks)
    ensures var w := run[listed].world;
            && At(run[end], t).result.entry == Read(Stored(w), k)
            && At(run[end], t).result.entry == LastPut(Kept(w.history, w.marks, w.missing, |w.marks|), k)
  {
    ListingHoldsAnswer(run, acts, listed, end, t, k);
    RunWorldOk(run, acts, listed);
    StoredIsKept(run[listed].world, run[0].form, PhaseOf(run[listed]), k);
  }

  lemma CleanMove(c: Config, a: Action, c': Config, t: nat, k: Key)
    requires IsStep(c, a, c') && InCleanGet(At(c, t), k) && InSegmentsOrDone(At(c', t))
    ensures At(c, t).GetList? ==> At(c', t).GetSegments?
    ensures At(c, t).GetSegments? && At(c', t).GetSegments? ==> At(c', t).key == k
  {
  }

  lemma {:induction false} CleanGetListed(
    run: seq<Config>, acts: seq<Action>, t: nat, k: Key, call: nat, end: nat, j: nat) returns (listed: nat)
    requires IsCall(run, acts, t, GetReq(k, Remote), call, end) && call < j < end
    requires At(run[j], t).GetSegments?
    ensures call < listed < j && At(run[listed], t) == GetList(k, Remote)
    ensures forall i | listed < i <= j :: InSegments(At(run[i], t), k)
    decreases j
  {
    CallServes(run, acts, t, GetReq(k, Remote), call, end, j);
    CleanStarts(run, acts, t, k, call);
    CallServes(run, acts, t, GetReq(k, Remote), call, end, j - 1);
    if At(run[j - 1], t).GetSegments? {
      listed := CleanGetListed(run, acts, t, k, call, end, j - 1);
    } else {
      listed := j - 1;
    }
  }

  lemma CleanStarts(run: seq<Config>, acts: seq<Action>, t: nat, k: Key, call: nat)
    requires IsRun(run, acts) && call < |acts| && acts[call] == Invoke(t, GetReq(k, Remote))
    ensures At(run[call + 1], t) == GetList(k, Remote)
  {
    assert StepAt(run, acts, call);
  }

  /** A get that was asked for `k` at the Remote level looks at no buffer: it returns what an atomic
      read of all segments at one moment of its call, its listing, would have, while flushes add
      more. That is the last put without the epochs then missing, and with nothing lost so far the
      value at the end of a prefix of the history. */
  lemma CleanGetIsLinearizable(run: seq<Config>, acts: seq<Action>, t: nat, k: Key, call: nat, end: nat)
    returns (listed: nat)
    requires IsCall(run, acts, t, GetReq(k, Remote), call, end)
    ensures call < listed < end && MarksOk(run[listed].world.history, run[listed].world.marks)
    ensures var w := run[listed].world;
            && At(run[end], t).result == Got(Read(Stored(w), k))
            && At(run[end], t).result == Got(LastPut(Kept(w.history, w.marks, w.missing, |w.marks|), k))
            && (Lost(w) == {} ==>
                  && StoredPoint(w) <= |w.history|
                  && At(run[end], t).result == Got(LastPut(w.history[..StoredPoint(w)], k)))
  {
    LastStep(run, acts, t, GetReq(k, Remote), call, end);
    CallAnswers(run, acts, t, GetReq(k, Remote), call, end);
    CleanMove(run[end - 1], acts[end - 1], run[end], t, k);
    listed := CleanGetListed(run, acts, t, k, call, end, end - 1);
    ListedAnswer(run, acts, listed, end, t, k);
    RunWorldOk(run, acts, listed);
    if Lost(run[listed].world) == {} {
      StoredIsPrefix(run[listed].world, run[0].form, PhaseOf(run[listed]), k);
    }
  }

  // ----- Dirty reads -----

  /** The last puts of `k` at the moments from `start` to `j`. */
  ghost function Seen(run: seq<Config>, start: nat, j: nat, k: Key): (seen: set<Entry>)
    requires start <= j < |run|
    ensures LastPut(run[j].world.history, k) in seen
    ensures forall v | v in seen :: exists m | start <= m <= j :: LastPut(run[m].world.history, k) == v
    decreases j
  {
    (if j == start then {} else Seen(run, start, j - 1, k)) + {LastPut(run[j].world.history, k)}
  }

  lemma {:induction false} SeenGrows(run: seq<Config>, start: nat, i: nat, j: nat, k: Key)
    requires start <= i <= j < |run|
    ensures Seen(run, start, i, k) <= Seen(run, start, j, k)
    decreases j
  {
    if i == j {
    } else {
      SeenGrows(run, start, i, j - 1, k);
    }
  }

  lemma PutsKept(w: World, w': World, k: Key)
    requires MarksOk(w.history, w.marks) && MarksOk(w'.history, w'.marks)
    requires w.history <= w'.history && w'.marks == w.marks
    ensures FrozenPut(w', k) == FrozenPut(w, k)
    ensures Settled(w') == Settled(w) ==> SettledPut(w', k) == SettledPut(w, k)
    ensures Settled(w') == |w.marks| ==> SettledPut(w', k) == FrozenPut(w, k)
  {
    var m, n := Mark(w.marks, |w.marks|), Mark(w.marks, Settled(w));
    assert w'.history[..m] == w.history[..m] && w'.history[..n] == w.history[..n];
  }

  lemma PutsAfterFreeze(w: World, form: Form, k: Key)
    requires WorldOk(w, form, Resting) && WorldOk(FreezeWorld(w), form, ToWrite)
    requires FreezeWorld(w) != w
    ensures FrozenPut(FreezeWorld(w), k) == LastPut(w.history, k)
    ensures SettledPut(FreezeWorld(w), k) == FrozenPut(w, k)
  {
    assert w.history[..|w.history|] == w.history;
  }

  /** A step leaves the frozen put of `k` as it was or makes it the last put, and leaves the settled
      put as it was or makes it the frozen one. */
  lemma PutsMove(w: World, w': World, form: Form, e: Effect, p: Phase, p': Phase, k: Key)
    requires WorldStep(w, w', form, e, p, p')
    ensures FrozenPut(w', k) == FrozenPut(w, k) || FrozenPut(w', k) == LastPut(w'.history, k)
    ensures SettledPut(w', k) == SettledPut(w, k) || SettledPut(w', k) == FrozenPut(w, k)
  {
    if e == Froze && w' != w {
      PutsAfterFreeze(w, form, k);
    } else {
      StepSettles(w, w', form, e, p, p');
      PutsKept(w, w', k);
    }
  }

  lemma StepSettles(w: World, w': World, form: Form, e: Effect, p: Phase, p': Phase)
    requires WorldStep(w, w', form, e, p, p') && (e == Froze ==> w' == w)
    ensures w.history <= w'.history && w'.marks == w.marks
    ensures Settled(w') == Settled(w) || Settled(w') == |w.marks|
  {
  }

  /** What a dirty get can rely on at each of its program points before it lists. */
  ghost predicate OnTrack(w: World, pc: PC, k: Key, seen: set<Entry>)
    requires MarksOk(w.history, w.marks)
  {
    && (pc.GetFrozen? || pc.GetList? ==> FrozenPut(w, k) in seen)
    && (pc.GetList? ==> SettledPut(w, k) in seen)
    && (pc.Returned? && pc.result.Got? ==> pc.result.entry in seen)
  }

  /** How a dirty get passes from one program point to the next. */
  ghost predicate LooksOn(w: World, pc: PC, pc': PC, k: Key) {
    match pc
    case GetBuf(_) => pc' == if k in w.store.buf then Returned(Got(w.store.buf[k])) else GetFrozen(k)
    case GetFrozen(_) => pc' == if k in w.store.imm then Returned(Got(w.store.imm[k])) else GetList(k, Memory)
    case _ => pc'.GetSegments?
  }

  lemma DirtyStep(c: Config, a: Action, c': Config, t: nat, k: Key)
    requires IsStep(c, a, c') && BeforeSegments(At(c, t), k)
    ensures At(c', t) == At(c, t) || (c'.world == c.world && LooksOn(c.world, At(c, t), At(c', t), k))
  {
  }

  /** While the task stays where it is, the world moves under it. */
  lemma WorldMovesOn(w: World, w': World, pc: PC, k: Key, form: Form, e: Effect, p: Phase, p': Phase, seen: set<Entry>)
    requires WorldStep(w, w', form, e, p, p') && OnTrack(w, pc, k, seen) && !pc.Returned?
    ensures OnTrack(w', pc, k, seen + {LastPut(w'.history, k)})
  {
    PutsMove(w, w', form, e, p, p', k);
  }

  /** When the task looks at a layer, the world stays as it is. */
  lemma TaskMovesOn(w: World, pc: PC, pc': PC, k: Key, form: Form, p: Phase, seen: set<Entry>)
    requires WorldOk(w, form, p) && BeforeSegments(pc, k) && LooksOn(w, pc, pc', k)
    requires OnTrack(w, pc, k, seen) && LastPut(w.history, k) in seen
    ensures OnTrack(w, pc', k, seen)
  {
    MissInBuf(w, form, p, k);
    MissInFrozen(w, form, p, k);
  }

  ghost predicate Tracked(run: seq<Config>, start: nat, j: nat, t: nat, k: Key)
    requires start <= j < |run|
  {
    && MarksOk(run[j].world.history, run[j].world.marks)
    && OnTrack(run[j].world, At(run[j], t), k, Seen(run, start, j, k))
  }

  lemma RunStaysOnTrack(run: seq<Config>, acts: seq<Action>, start: nat, j: nat, t: nat, k: Key)
    requires IsRun(run, acts) && start <= j < |acts| && BeforeSegments(At(run[j], t), k)
    requires Tracked(run, start, j, t, k)
    ensures Tracked(run, start, j + 1, t, k)
  {
    var c, c', seen := run[j], run[j + 1], Seen(run, start, j, k);
    RunWorldStep(run, acts, j);
    assert StepAt(run, acts, j);
    DirtyStep(c, acts[j], c', t, k);
    if At(c', t) == At(c, t) {
      WorldMovesOn(c.world, c'.world, At(c, t), k, run[0].form, EffectOf(c, acts[j]), PhaseOf(c), PhaseOf(c'), seen);
    } else {
      TaskMovesOn(c.world, At(c, t), At(c', t), k, run[0].form, PhaseOf(c), seen);
    }
  }

  lemma StartsOnTrack(run: seq<Config>, acts: seq<Action>, start: nat, t: nat, k: Key)
    requires IsRun(run, acts) && start < |run| && At(run[start], t) == GetBuf(k)
    ensures Tracked(run, start, start, t, k)
  {
    RunWorldOk(run, acts, start);
  }

  lemma {:induction false} DirtyGetStaysOnTrack(
    run: seq<Config>, acts: seq<Action>, start: nat, j: nat, t: nat, k: Key)
    requires IsRun(run, acts) && start <= j < |run|
    requires At(run[start], t) == GetBuf(k)
    requires forall i | start <= i < j :: BeforeSegments(At(run[i], t), k)
    ensures Tracked(run, start, j, t, k)
    decreases j
  {
    if j == start {
      StartsOnTrack(run, acts, start, t, k);
    } else {
      assert BeforeSegments(At(run[j - 1], t), k);
      DirtyGetStaysOnTrack(run, acts, start, j - 1, t, k);
      RunStaysOnTrack(run, acts, start, j - 1, t, k);
    }
  }

  /** The step by which a dirty get decides its answer: its look at a buffer, when that ends it, or
      else its listing. */
  lemma {:induction false} DirtyGetDecides(
    run: seq<Config>, acts: seq<Action>, start: nat, j: nat, t: nat, k: Key) returns (decide: nat)
    requires IsRun(run, acts) && start < j < |run|
    requires At(run[start], t) == GetBuf(k)
    requires forall i | start <= i < j :: InDirtyGet(At(run[i], t), k)
    requires InSegmentsOrDone(At(run[j], t))
    ensures start <= decide < j
    ensures forall i | start <= i <= decide :: BeforeSegments(At(run[i], t), k)
    ensures if At(run[decide], t).GetList? then forall i | decide < i < j :: InSegments(At(run[i], t), k)
            else decide + 1 == j
    decreases j
  {
    assert InDirtyGet(At(run[j - 1], t), k);
    if At(run[j - 1], t).GetSegments? {
      decide := DirtyGetDecides(run, acts, start, j - 1, t, k);
      if !At(run[decide], t).GetList? {
        assert StepAt(run, acts, decide);
        DirtyStep(run[decide], acts[decide], run[decide + 1], t, k);
      }
    } else {
      decide := j - 1;
      BeforeStays(run, acts, start, j - 1, t, k);
    }
  }

  lemma SegmentsStay(c: Config, a: Action, c': Config, t: nat, k: Key)
    requires IsStep(c, a, c') && At(c, t).GetSegments? && InDirtyGet(At(c', t), k)
    ensures At(c', t).GetSegments?
  {
  }

  /** A get that has not listed yet has never listed. */
  lemma {:induction false} BeforeStays(run: seq<Config>, acts: seq<Action>, start: nat, j: nat, t: nat, k: Key)
    requires IsRun(run, acts) && start <= j < |run|
    requires forall i | start <= i <= j :: InDirtyGet(At(run[i], t), k)
    requires BeforeSegments(At(run[j], t), k)
    ensures forall i | start <= i <= j :: BeforeSegments(At(run[i], t), k)
    decreases j
  {
    if j == start {
    } else {
      assert InDirtyGet(At(run[j - 1], t), k);
      if At(run[j - 1], t).GetSegments? {
        assert StepAt(run, acts, j - 1);
        SegmentsStay(run[j - 1], acts[j - 1], run[j], t, k);
      }
      BeforeStays(run, acts, start, j - 1, t, k);
    }
  }

  /** At the deciding step, the answer is a last put seen so far, or `k` is overlooked there. */
  lemma DecidedAnswer(
    run: seq<Config>, acts: seq<Action>, start: nat, decide: nat, end: nat, t: nat, k: Key)
    requires IsRun(run, acts) && start <= decide < end < |run|
    requires At(run[start], t) == GetBuf(k)
    requires forall i | start <= i <= decide :: BeforeSegments(At(run[i], t), k)
    requires if At(run[decide], t).GetList? then forall i | decide < i < end :: InSegments(At(run[i], t), k)
             else decide + 1 == end
    requires At(run[end], t).Returned? && At(run[end], t).result.Got?
    ensures if At(run[decide], t).GetList? && Overlooked(run[decide].world, k)
            then exists v | v in Seen(run, start, end, k) :: v != At(run[end], t).result.entry
            else At(run[end], t).result.entry in Seen(run, start, end, k)
  {
    var w, seen := run[decide].world, Seen(run, start, decide, k);
    DirtyGetStaysOnTrack(run, acts, start, decide, t, k);
    SeenGrows(run, start, decide, end, k);
    if At(run[decide], t).GetList? {
      ListingHoldsAnswer(run, acts, decide, end, t, k);
      RunWorldOk(run, acts, decide);
      StoredUnlessOverlooked(w, run[0].form, PhaseOf(run[decide]), k);
      assert SettledPut(w, k) in seen && FrozenPut(w, k) in seen;
    } else {
      DirtyGetStaysOnTrack(run, acts, start, end, t, k);
    }
  }

  /** The points that a dirty get call passes. */
  lemma DirtyStretch(run: seq<Config>, acts: seq<Action>, t: nat, k: Key, call: nat, end: nat)
    requires IsCall(run, acts, t, GetReq(k, Memory), call, end)
    ensures call + 1 < end && At(run[call + 1], t) == GetBuf(k) && At(run[end], t).result.Got?
    ensures forall i | call + 1 <= i < end :: InDirtyGet(At(run[i], t), k)
  {
    LastStep(run, acts, t, GetReq(k, Memory), call, end);
    CallAnswers(run, acts, t, GetReq(k, Memory), call, end);
    CallStarts(run, acts, t, GetReq(k, Memory), call);
    CallStretch(run, acts, t, GetReq(k, Memory), call, end);
    forall i | call + 1 <= i < end ensures InDirtyGet(At(run[i], t), k) {
      assert Serves(At(run[i], t), GetReq(k, Memory));
    }
  }

  /** A get that was asked for `k` at the Memory level reads `buf`, the frozen buffer, the listing and
      each segment in separate steps. It still returns what was the last put of `k` at some moment
      between its call and its return, whatever is put, flushed or fails meanwhile, unless it lists
      at a moment at which `k` is overlooked. In the clone form that never happens (`OverlookedIs`). */
  lemma DirtyGetIsLinearizable(run: seq<Config>, acts: seq<Action>, t: nat, k: Key, call: nat, end: nat)
    requires IsCall(run, acts, t, GetReq(k, Memory), call, end)
    requires forall i | call < i < end && At(run[i], t).GetList? && acts[i].List? && acts[i].t == t ::
               run[0].form.Clone? || !Overlooked(run[i].world, k)
    ensures exists m | call < m <= end :: At(run[end], t).result == Got(LastPut(run[m].world.history, k))
  {
    DirtyStretch(run, acts, t, k, call, end);
    var decide := DirtyGetDecides(run, acts, call + 1, end, t, k);
    DecidedAnswer(run, acts, call + 1, decide, end, t, k);
    if At(run[decide], t).GetList? {
      RunListed(run, acts, decide, end, t, k);
      RunWorldOk(run, acts, decide);
      OverlookedIs(run[decide].world, run[0].form, PhaseOf(run[decide]), k);
    }
    assert At(run[end], t).result.entry in Seen(run, call + 1, end, k);
  }

  lemma RunListed(run: seq<Config>, acts: seq<Action>, decide: nat, end: nat, t: nat, k: Key)
    requires IsRun(run, acts) && decide < end < |run|
    requires At(run[decide], t) == GetList(k, Memory)
    requires forall i | decide < i < end :: InSegments(At(run[i], t), k)
    requires InSegmentsOrDone(At(run[end], t))
    ensures acts[decide].List? && acts[decide].t == t
  {
    assert InSegmentsOrDone(At(run[decide + 1], t));
    RunListStep(run, acts, decide, t, k);
  }

  lemma {:induction false} SeenOnce(run: seq<Config>, start: nat, j: nat, k: Key, v: Entry)
    requires start <= j < |run|
    requires forall i | start <= i <= j :: LastPut(run[i].world.history, k) == v
    ensures Seen(run, start, j, k) == {v}
    decreases j
  {
    if j == start {
    } else {
      SeenOnce(run, start, j - 1, k, v);
    }
  }

  /** The exact condition, for a key whose last put does not change during the call: the get returns
      it if and only if it did not list at a moment at which the key was overlooked. */
  lemma DirtyGetIsLastPutIff(
    run: seq<Config>, acts: seq<Action>, t: nat, k: Key, call: nat, end: nat, v: Entry) returns (decide: nat)
    requires IsCall(run, acts, t, GetReq(k, Memory), call, end)
    requires forall i | call < i <= end :: LastPut(run[i].world.history, k) == v
    ensures call < decide < end
    ensures At(run[decide], t).GetList? ==> acts[decide].List? && acts[decide].t == t
    ensures At(run[end], t).result == Got(v)
            <==> !(At(run[decide], t).GetList? && Overlooked(run[decide].world, k))
  {
    DirtyStretch(run, acts, t, k, call, end);
    decide := DirtyGetDecides(run, acts, call + 1, end, t, k);
    DecidedAnswer(run, acts, call + 1, decide, end, t, k);
    SeenOnce(run, call + 1, end, k, v);
    if At(run[decide], t).GetList? {
      RunListed(run, acts, decide, end, t, k);
    }
  }

  /** The same in terms of what is in memory: unless the key's newest settled epoch was lost to a
      failed put, the get misses the last put exactly when it lists while the key is in a taken but
      unwritten segment under a value that differs from the stored one. */
  lemma DirtyGetMissesOnlyInFlight(
    run: seq<Config>, acts: seq<Action>, t: nat, k: Key, call: nat, end: nat, v: Entry) returns (decide: nat)
    requires IsCall(run, acts, t, GetReq(k, Memory), call, end)
    requires forall i | call < i <= end :: LastPut(run[i].world.history, k) == v
    ensures call < decide < end && MarksOk(run[decide].world.history, run[decide].world.marks)
    ensures var w := run[decide].world;
            run[0].form.Clone? || NewestSettled(w, k) !in Lost(w) ==>
              (At(run[end], t).result == Got(v)
               <==> !(&& At(run[decide], t).GetList?
                      && run[0].form.Take?
                      && k in InFlight(w)
                      && InFlight(w)[k] != Read(Stored(w), k)))
  {
    decide := DirtyGetIsLastPutIff(run, acts, t, k, call, end, v);
    RunWorldOk(run, acts, decide);
    OverlookedIs(run[decide].world, run[0].form, PhaseOf(run[decide]), k);
  }

  // ----- Flush -----

  /** Past the test of the two buffers. */
  predicate PastTest(pc: PC) {
    pc.FreezeHeld? || PhaseAt(pc) != Resting
  }

  ghost predicate DurableTo(w: World, count: nat) {
    Covered(w.marks, w.missing, count)
  }

  /** What a flush that tested the buffers in `w0` has done when it stands at `pc`; `w1` is `w0`
      after the test. */
  ghost predicate Persisted(w0: World, w1: World, pc: PC, w: World) {
    && (pc.FreezeHeld? ==> w == w0)
    && (PhaseAt(pc) != Resting || pc == Returned(FlushOk) ==> w.marks == w1.marks && w0.history <= w.history)
    && (pc.WriteStart? ==> w.missing == w1.missing && w.store.imm == w1.store.imm)
    && (pc.Writing? ==> w.missing == w1.missing && w1.store.imm != map[])
    && (pc.ClearStart? || pc == Returned(FlushOk) ==>
          w.missing == if w1.store.imm != map[] then w1.missing - {|w1.marks|} else w1.missing)
  }

  ghost predicate PersistedPast(w0: World, pc: PC, w: World) {
    Persisted(w0, FreezeWorld(w0), pc, w) && (InFlush(pc) ==> PastTest(pc))
  }

  lemma OwnFlushStep(w0: World, c: Config, a: Action, c': Config)
    requires IsStep(c, a, c') && PastTest(c.pcs[a.t]) && Persisted(w0, FreezeWorld(w0), c.pcs[a.t], c.world)
    ensures PersistedPast(w0, At(c', a.t), c'.world)
  {
  }

  lemma OtherStep(w0: World, c: Config, a: Action, c': Config, t: nat)
    requires IsStep(c, a, c') && a.t != t && t < |c.pcs| && PastTest(c.pcs[t])
    requires !HoldsGate(c.pcs[a.t]) && (HoldsBuf(c.pcs[t]) ==> c.bufGuard == Some(t))
    requires Persisted(w0, FreezeWorld(w0), c.pcs[t], c.world)
    ensures PersistedPast(w0, At(c', t), c'.world)
  {
    assert c'.world == c.world || (c.pcs[a.t].PutWait? && !HoldsBuf(c.pcs[t]));
  }

  lemma RunPersistStep(w0: World, run: seq<Config>, acts: seq<Action>, j: nat, t: nat)
    requires IsRun(run, acts) && j < |acts|
    requires PastTest(At(run[j], t)) && Persisted(w0, FreezeWorld(w0), At(run[j], t), run[j].world)
    ensures PersistedPast(w0, At(run[j + 1], t), run[j + 1].world)
  {
    var c := run[j];
    RunKeepsInv(run, acts, j);
    assert StepAt(run, acts, j);
    assert HoldsGate(c.pcs[t]) <==> c.gate == Some(t);
    assert HoldsBuf(c.pcs[t]) <==> c.bufGuard == Some(t);
    if acts[j].t == t {
      OwnFlushStep(w0, c, acts[j], run[j + 1]);
    } else {
      OtherStep(w0, c, acts[j], run[j + 1], t);
    }
  }

  /** From its test of the buffers to its return, no other task touches what a flush freezes. */
  lemma {:induction false} FlushPersists(run: seq<Config>, acts: seq<Action>, t: nat, test: nat, j: nat)
    requires IsRun(run, acts) && test <= j < |run|
    requires At(run[test], t).FreezeHeld?
    requires forall i | test <= i < j :: InFlush(At(run[i], t))
    ensures PersistedPast(run[test].world, At(run[j], t), run[j].world)
    decreases j
  {
    if j == test {
    } else {
      FlushPersists(run, acts, t, test, j - 1);
      assert InFlush(At(run[j - 1], t));
      RunPersistStep(run[test].world, run, acts, j - 1, t);
    }
  }

  lemma CoveredToEnd(h: seq<Op>, marks: seq<nat>, missing: set<nat>)
    requires MarksOk(h, marks)
    requires forall i | i in missing :: 1 <= i <= |marks|
    ensures Covered(marks, missing, Mark(marks, |marks|)) <==> missing == {}
    ensures forall count | count > Mark(marks, |marks|) :: !Covered(marks, missing, count)
  {
    if missing == {} {
      assert Complete(missing, |marks|);
    }
  }

  /** What a flush leaves behind when it returns Ok, in terms of the state it tested. */
  lemma ReturnedDurable(w0: World, w: World, form: Form, p: Phase)
    requires WorldOk(w0, form, Resting) && WorldOk(w, form, p)
    requires Persisted(w0, FreezeWorld(w0), Returned(FlushOk), w)
    ensures w.missing == Away(w0)
    ensures Mark(w.marks, |w.marks|) <= |w0.history|
    ensures Mark(w.marks, |w.marks|) == |w0.history| <==> w0.store.imm == map[] || w0.store.buf == map[]
  {
    ReplayEmpty(Tail(w0.history, w0.marks));
    if FreezeWorld(w0) != w0 {
      assert w0.missing + {|w0.marks| + 1} - {|w0.marks| + 1} == w0.missing;
    }
  }

  lemma FlushStretch(run: seq<Config>, acts: seq<Action>, t: nat, call: nat, end: nat)
    requires IsCall(run, acts, t, FlushReq, call, end)
    ensures call + 1 < end && At(run[call + 1], t).FlushWait?
    ensures forall i | call < i < end :: InFlush(At(run[i], t))
  {
    LastStep(run, acts, t, FlushReq, call, end);
    CallStarts(run, acts, t, FlushReq, call);
    forall i | call < i < end ensures InFlush(At(run[i], t)) {
      CallServes(run, acts, t, FlushReq, call, end, i);
    }
  }

  /** Whatever has failed: a flush that returns Ok has made everything accepted before its test of
      the buffers durable if and only if at that test no epoch was away and there was not both
      something left frozen and something in `buf`. */
  lemma FlushOkIsDurableIff(run: seq<Config>, acts: seq<Action>, t: nat, call: nat, test: nat, end: nat)
    requires IsCall(run, acts, t, FlushReq, call, end) && At(run[end], t).result == FlushOk
    requires call < test < end && At(run[test], t).FreezeHeld?
    ensures var w := run[test].world;
            DurableTo(run[end].world, |w.history|)
            <==> Away(w) == {} && (w.store.imm == map[] || w.store.buf == map[])
  {
    var w0, w := run[test].world, run[end].world;
    TestIsResting(run, acts, t, test);
    RunWorldOk(run, acts, end);
    FlushStretch(run, acts, t, call, end);
    FlushPersists(run, acts, t, test, end);
    ReturnedDurable(w0, w, run[0].form, PhaseOf(run[end]));
    CoveredToEnd(w.history, w.marks, w.missing);
  }

  lemma TestIsResting(run: seq<Config>, acts: seq<Action>, t: nat, test: nat)
    requires IsRun(run, acts) && test < |run| && At(run[test], t).FreezeHeld?
    ensures WorldOk(run[test].world, run[0].form, Resting)
  {
    RunKeepsInv(run, acts, test);
    assert HoldsGate(run[test].pcs[t]);
  }

  lemma DurableStaysDurable(run: seq<Config>, acts: seq<Action>, i: nat, j: nat, count: nat)
    requires IsRun(run, acts) && i <= j < |run|
    requires DurableTo(run[i].world, count)
    ensures DurableTo(run[j].world, count)
  {
    RunGrows(run, acts, i, j);
    var w, w' := run[i].world, run[j].world;
    var m :| 0 <= m <= |w.marks| && Complete(w.missing, m) && count <= Mark(w.marks, m);
    assert Complete(w'.missing, m) && Mark(w'.marks, m) == Mark(w.marks, m);
  }

  /** After such a flush every later clean read of any key returns a value at least as new as its
      test, whatever fails later. */
  lemma FlushedWritesStayVisible(
    run: seq<Config>, acts: seq<Action>, t: nat, call: nat, test: nat, end: nat, later: nat, k: Key)
    requires IsCall(run, acts, t, FlushReq, call, end) && At(run[end], t).result == FlushOk
    requires call < test < end <= later < |run| && At(run[test], t).FreezeHeld?
    requires Away(run[test].world) == {}
    requires run[test].world.store.imm == map[] || run[test].world.store.buf == map[]
    ensures exists cut | |run[test].world.history| <= cut <= |run[later].world.history| ::
              Read(Stored(run[later].world), k) == LastPut(run[later].world.history[..cut], k)
  {
    var w, count := run[later].world, |run[test].world.history|;
    FlushOkIsDurableIff(run, acts, t, call, test, end);
    DurableStaysDurable(run, acts, end, later, count);
    RunWorldOk(run, acts, later);
    StoredIsKept(w, run[0].form, PhaseOf(run[later]), k);
    var m :| 0 <= m <= |w.marks| && Complete(w.missing, m) && count <= Mark(w.marks, m);
    var cut := KeptIsSomeCut(w.history, w.marks, w.missing, m, |w.marks|, k);
  }

  lemma FlushStepBack(c: Config, a: Action, c': Config, t: nat)
    requires IsStep(c, a, c') && InFlush(At(c, t))
    requires PhaseAt(At(c', t)) != Resting || At(c', t) == Returned(FlushOk)
    ensures PastTest(At(c, t))
  {
  }

  /** A flush that returns Ok has tested the buffers within its call. */
  lemma {:induction false} FlushTests(run: seq<Config>, acts: seq<Action>, t: nat, call: nat, j: nat)
    returns (test: nat)
    requires IsRun(run, acts) && call <= j < |run|
    requires At(run[call], t).FlushWait?
    requires forall i | call <= i < j :: InFlush(At(run[i], t))
    requires PastTest(At(run[j], t)) || At(run[j], t) == Returned(FlushOk)
    ensures call <= test <= j && At(run[test], t).FreezeHeld?
    decreases j
  {
    if At(run[j], t).FreezeHeld? {
      test := j;
    } else {
      assert InFlush(At(run[j - 1], t));
      assert StepAt(run, acts, j - 1);
      FlushStepBack(run[j - 1], acts[j - 1], run[j], t);
      test := FlushTests(run, acts, t, call, j - 1);
    }
  }

  /** Every flush that returns Ok has tested the buffers within its call, so the theorems on Ok
      returns speak of every one. */
  lemma FlushOkHasTested(run: seq<Config>, acts: seq<Action>, t: nat, call: nat, end: nat) returns (test: nat)
    requires IsCall(run, acts, t, FlushReq, call, end) && At(run[end], t).result == FlushOk
    ensures call < test < end && At(run[test], t).FreezeHeld?
    ensures run[call].world.history <= run[test].world.history
  {
    FlushStretch(run, acts, t, call, end);
    test := FlushTests(run, acts, t, call + 1, end);
    RunGrows(run, acts, call, test);
  }

  /** In particular, as long as no put has failed when a flush returns Ok, everything accepted before
      its call is visible to, or overwritten in, every later clean read, whatever fails later. */
  lemma FlushOkIsDurable(run: seq<Config>, acts: seq<Action>, t: nat, call: nat, end: nat, later: nat, k: Key)
    requires IsCall(run, acts, t, FlushReq, call, end) && At(run[end], t).result == FlushOk
    requires end <= later < |run| && run[end].world.failures == 0
    ensures exists cut | |run[call].world.history| <= cut <= |run[later].world.history| ::
              Read(Stored(run[later].world), k) == LastPut(run[later].world.history[..cut], k)
  {
    var test := FlushOkHasTested(run, acts, t, call, end);
    RunGrows(run, acts, test, end);
    TestIsResting(run, acts, t, test);
    FlushedWritesStayVisible(run, acts, t, call, test, end, later, k);
  }
}
