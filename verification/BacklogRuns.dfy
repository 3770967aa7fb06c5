/**
 Orderly runs of Backlog: what they keep, and exactly when they lose and repeat nothing.
 */
module BacklogRuns {
  import opened Bytes
  import opened Reply
  import opened Backlog
  import opened BacklogSends
  import opened BacklogChecks

  // ---------------------------------------------------------------- every step

  lemma ReserveStepKeeps(replies: Replies, s: State, w: nat)
    requires Inv(s) && Enabled(replies, s, Move(w)) && s.pcs[w].Outside?
    ensures Inv(Do(replies, s, Move(w)))
  {
    var u := Do(replies, s, Move(w));
    ReserveKeeps(s, u);
    ReserveKeepsSlots(s, u, w);
    hide BufferInv, SlotInv;
  }

  lemma WriteStepKeeps(replies: Replies, s: State, w: nat)
    requires NonEmpty(replies) && Inv(s) && Enabled(replies, s, Move(w)) && Orderly(s, Move(w))
    requires (s.pcs[w].Reserved? || s.pcs[w].LineIn?)
    ensures Inv(Do(replies, s, Move(w)))
  {
    hide BufferInv;
    var u, pc := Do(replies, s, Move(w)), s.pcs[w];
    var at := if pc.Reserved? then pc.index else pc.index + 1;
    var item := if pc.Reserved? then replies[w].0 else replies[w].1;
    assert OwnInv(s, w);
    assert u == Write(s, at, item).(pcs := u.pcs) && u.pcs == s.pcs[w := u.pcs[w]];
    WriteKeeps(s, at, item);
    WriteKeepsSlots(s, u, w, at, Marked(item, at));
    hide SlotInv;
    OthersKeep(Write(s, at, item), u);
  }

  /** The steps of a worker that is not flushing, after its writes, except to take the flag. */
  lemma OtherStepKeeps(replies: Replies, s: State, step: Step)
    requires Inv(s) && Enabled(replies, s, step)
    requires var pc := s.pcs[step.w];
      pc.ValueIn? || pc.Counted? || pc.Released? ||
      (pc.Looked? && !(FlushDue(pc.index, pc.total, pc.start) && s.flush.Free?))
    ensures Inv(Do(replies, s, step))
  {
    hide BufferInv;
    var u := Do(replies, s, step);
    assert u == s.(pcs := u.pcs, totalsize := u.totalsize);
    OthersKeep(s, u);
    assert OwnInv(s, step.w);
    RestKeepsSlots(s, u, step.w);
    hide SlotInv;
  }

  lemma TakeFlagKeeps(replies: Replies, s: State, w: nat)
    requires Inv(s) && Enabled(replies, s, Move(w)) && s.pcs[w].Looked?
    requires FlushDue(s.pcs[w].index, s.pcs[w].total, s.pcs[w].start) && s.flush.Free?
    ensures Inv(Do(replies, s, Move(w)))
  {
    var u := Do(replies, s, Move(w));
    assert OwnInv(s, w);
    assert s.windexlast <= |s.slots|;
    hide BufferInv;
    QuietKeeps(s, u);
    RestKeepsSlots(s, u, w);
    hide SlotInv;
  }

  lemma FlushBufferKeeps(replies: Replies, s: State, step: Step)
    requires BufferInv(s) && Enabled(replies, s, step) && Orderly(s, step) && s.pcs[step.w].Flushing?
    ensures BufferInv(Do(replies, s, step))
  {
    hide BufferInv, SendNow, ReadOne, Settle;
    match s.flush
    case Held(_, _, _) =>
      if step.taken > 0 { SendKeeps(s, step.taken); } else { SendsNothing(s); QuietKeeps(s, Do(replies, s, step)); }
    case Reading(_, _, _, _, _) => ReadKeeps(s);
    case Found(_, _, _, _, _, _) => SettleKeeps(s);
    case Moved(_, _) => QuietKeeps(s, Do(replies, s, step));
  }

  lemma SendsNothing(s: State)
    requires s.flush.Held? && s.flush.start + s.flush.count <= |s.slots|
    ensures SendNow(s, 0) == s.(flush := Moved(s.flush.w, 0))
  {
  }

  /** A flush stays in its worker's hands until the flag is released. */
  lemma FlushStepKeeps(replies: Replies, s: State, step: Step)
    requires Inv(s) && Enabled(replies, s, step) && Orderly(s, step) && s.pcs[step.w].Flushing?
    ensures Inv(Do(replies, s, step))
  {
    FlushBufferKeeps(replies, s, step);
    FlushStepFrame(replies, s, step);
    hide BufferInv, Do;
    RestKeepsSlots(s, Do(replies, s, step), step.w);
    hide SlotInv;
  }

  lemma FlushStepFrame(replies: Replies, s: State, step: Step)
    requires Enabled(replies, s, step) && s.pcs[step.w].Flushing?
    ensures var w, u := step.w, Do(replies, s, step);
      && |u.pcs| == |s.pcs| && |u.slots| == |s.slots| && u.written == s.written && u.pcs == s.pcs[w := u.pcs[w]]
      && u.windexlast >= s.windexlast && FreeOr(s.flush, w) && FreeOr(u.flush, w)
      && (if u.flush.Free? then u.pcs[w].Released? || u.pcs[w].Done? else u.pcs[w].Flushing?)
  {
    hide Cat, Blank;
  }

  lemma StepKeeps(replies: Replies, s: State, step: Step)
    requires NonEmpty(replies) && Inv(s) && Enabled(replies, s, step) && Orderly(s, step)
    ensures Inv(Do(replies, s, step))
  {
    hide Inv, Do;
    match s.pcs[step.w]
    case Outside => ReserveStepKeeps(replies, s, step.w);
    case Reserved(_) => WriteStepKeeps(replies, s, step.w);
    case LineIn(_) => WriteStepKeeps(replies, s, step.w);
    case Looked(index, total, start) =>
      if FlushDue(index, total, start) && s.flush.Free? {
        TakeFlagKeeps(replies, s, step.w);
      } else {
        OtherStepKeeps(replies, s, step);
      }
    case Flushing => FlushStepKeeps(replies, s, step);
    case _ => OtherStepKeeps(replies, s, step);
  }

  lemma InitInv(replies: Replies)
    ensures Inv(Init(replies))
  {
    var s := Init(replies);
    assert Kept(s) == [] && Rest(s) == [];
    assert Kept(s)[..0] == [];
    assert Cat<Mark>([]) == [];
  }

  lemma {:induction false} RunKeeps(replies: Replies, s: State, steps: seq<Step>)
    requires NonEmpty(replies) && Inv(s) && InOrder(replies, s, steps)
    ensures Inv(After(replies, s, steps)) && |After(replies, s, steps).pcs| == |s.pcs|
    decreases |steps|
  {
    hide Inv, Do, Enabled, Orderly, NonEmpty;
    if steps != [] {
      StepKeeps(replies, s, steps[0]);
      RunKeeps(replies, Do(replies, s, steps[0]), steps[1..]);
    }
  }

  // ---------------------------------------------------------------- conservation

  lemma {:induction false} LessIsLonger<T>(less: seq<seq<T>>, more: seq<seq<T>>)
    requires |less| == |more| && forall i :: 0 <= i < |less| ==> less[i] == more[i] || less[i] == []
    ensures |Cat(less)| <= |Cat(more)|
  {
    if less != [] {
      LessIsLonger(less[1..], more[1..]);
    }
  }

  /** Sent ++ left is all that was written: each byte once, in slot order. */
  ghost predicate Conserved(s: State)
    requires s.windexlast <= |s.slots|
  {
    s.wire + Cat(Rest(s)) == Cat(Written(s))
  }

  /** What was passed empty is still not written. */
  ghost predicate NoneLate(s: State) {
    forall k :: k in s.skipped && k < |s.written| ==> s.written[k] == None
  }

  /**
   In every orderly run, when no check is under way: what is left is what the number of bytes
   sent says, of the slots that were not passed empty; what was sent is the rest of it if no
   check ever counted a slot that was empty when it was sent. So each byte is sent once and in
   order, or still left to be, if and only if no slot was ever counted like that and every slot
   that was passed empty is still unwritten.
   */
  lemma ConservedExactly(replies: Replies, steps: seq<Step>)
    requires NonEmpty(replies) && InOrder(replies, Init(replies), steps) && !InCheck(After(replies, Init(replies), steps))
    ensures var s := After(replies, Init(replies), steps);
      && s.windexlast <= |s.slots| == |s.written| && |s.wire| <= |Cat(Kept(s))| && Cat(Rest(s)) == Cat(Kept(s))[|s.wire|..]
      && (s.miscounted == {} ==> s.wire + Cat(Rest(s)) == Cat(Kept(s)))
      && (Conserved(s) <==> s.miscounted == {} && NoneLate(s))
  {
    InitInv(replies);
    RunKeeps(replies, Init(replies), steps);
    hide InOrder, After;
    var s := After(replies, Init(replies), steps);
    LeftIsTheRest(s);
    ConservedIff(s);
  }

  lemma LeftIsTheRest(s: State)
    requires BufferInv(s) && !InCheck(s)
    ensures s.windexlast <= |s.slots| == |s.written|
    ensures |s.wire| <= |Cat(Kept(s))| && Cat(Rest(s)) == Cat(Kept(s))[|s.wire|..]
    ensures s.miscounted == {} ==> s.wire + Cat(Rest(s)) == Cat(Kept(s))
  {
    hide Cat, FlushInv, LostInv, WireInv;
    AdvancedRest(Kept(s), Rest(s), s.windexlast, s.off, |s.wire|);
    assert s.wire[..|s.wire|] == s.wire;
  }

  lemma ConservedIff(s: State)
    requires BufferInv(s) && !InCheck(s)
    requires s.windexlast <= |s.slots|
    ensures Conserved(s) <==> s.miscounted == {} && NoneLate(s)
  {
    LeftIsTheRest(s);
    if s.miscounted != {} {
      var k :| k in s.miscounted;
      FirstByteIsLost(s, k);
    } else if NoneLate(s) {
      hide BufferInv, Cat;
      assert Kept(s) == Written(s);
    } else {
      LostIfLate(s);
    }
  }

  /** The first byte of a slot that was counted without having been sent is nowhere. */
  lemma FirstByteIsLost(s: State, k: nat)
    requires BufferInv(s) && !InCheck(s) && k in s.miscounted && s.windexlast <= |s.slots|
    ensures !Conserved(s)
  {
    assert MarkedAt(s, k);
    var x := s.written[k].value[0];
    assert x.slot == k && x.at == 0;
    assert x in Written(s)[k];
    InCat(Written(s), x);
    InCat(Rest(s), x);
    assert x !in s.wire;
    forall j | 0 <= j < |Rest(s)| ensures x !in Rest(s)[j] {
      Ahead(s, s.windexlast + j);
    }
    hide Cat, BufferInv, Written, Rest;
    assert x in Cat(Written(s)) && x !in s.wire + Cat(Rest(s));
  }

  lemma {:induction false} LessIsShorter<T>(less: seq<seq<T>>, more: seq<seq<T>>, k: nat)
    requires |less| == |more| && forall i :: 0 <= i < |less| ==> less[i] == more[i] || less[i] == []
    requires k < |less| && less[k] == [] && more[k] != []
    ensures |Cat(less)| < |Cat(more)|
    decreases k
  {
    if k == 0 {
      LessIsLonger(less[1..], more[1..]);
    } else {
      LessIsShorter(less[1..], more[1..], k - 1);
    }
  }

  lemma LostIfLate(s: State)
    requires EdgeInv(s) && !NoneLate(s)
    ensures |Cat(Kept(s))| < |Cat(Written(s))|
  {
    hide Cat;
    var k :| k in s.skipped && k < |s.written| && s.written[k].Some?;
    assert MarkedAt(s, k);
    LessIsShorter(Kept(s), Written(s), k);
  }

  ghost predicate Finished(s: State) {
    forall w :: 0 <= w < |s.pcs| ==> s.pcs[w].Done?
  }

  lemma AllWritten(s: State)
    requires SlotInv(s) && Finished(s)
    ensures (forall k :: 0 <= k < |s.written| ==> s.written[k].Some?) && s.flush.Free?
  {
    forall k | 0 <= k < |s.written|
      ensures s.written[k].Some?
    {
      assert Covered(s, k);
    }
    assert !s.flush.Free? ==> OwnInv(s, s.flush.w);
  }

  /**
   Once all workers are done nothing has been lost or repeated if and only if no flush has
   passed an empty slot and no check has counted one that was empty when it was sent.
   */
  lemma FinishedConservedExactly(replies: Replies, steps: seq<Step>)
    requires NonEmpty(replies) && InOrder(replies, Init(replies), steps)
    requires Finished(After(replies, Init(replies), steps))
    ensures var s := After(replies, Init(replies), steps);
      s.flush.Free? && s.windexlast <= |s.slots| && (Conserved(s) <==> s.miscounted == {} && s.skipped == {})
  {
    InitInv(replies);
    RunKeeps(replies, Init(replies), steps);
    AllWritten(After(replies, Init(replies), steps));
    ConservedExactly(replies, steps);
    hide InOrder, After, Cat, BufferInv, SlotInv, Finished, Conserved;
  }

  // ---------------------------------------------------------------- flushes of written slots only

  /** No flush sends while a slot that it offers is still empty. */
  ghost predicate OffersWritten(replies: Replies, s: State, steps: seq<Step>)
    requires InOrder(replies, s, steps)
    decreases |steps|
  {
    steps == [] ||
    (OfferWritten(s, steps[0]) && OffersWritten(replies, Do(replies, s, steps[0]), steps[1..]))
  }

  predicate OfferWritten(s: State, step: Step) {
    step.Send? && step.taken > 0 && s.flush.Held? && s.flush.start + s.flush.count <= |s.slots| ==>
      forall k :: s.flush.start <= k < s.flush.start + s.flush.count ==> s.slots[k] != []
  }

  ghost predicate FullInv(s: State) {
    && s.skipped == {} && s.miscounted == {}
    && (InCheck(s) ==> forall j :: 0 <= j < |s.flush.offered| ==> s.flush.offered[j] != [])
  }

  lemma OtherStepsAreFull(replies: Replies, s: State, step: Step)
    requires FullInv(s) && Enabled(replies, s, step) && !s.pcs[step.w].Flushing?
    ensures FullInv(Do(replies, s, step))
  {
    hide Cat, SendNow, ReadOne, Settle, FlushEnabled;
  }

  lemma SendIsFull(s: State, taken: nat)
    requires FullInv(s) && s.flush.Held? && s.flush.start + s.flush.count <= |s.slots|
    requires taken <= |Cat(s.slots[s.flush.start..s.flush.start + s.flush.count])|
    requires taken > 0 ==> forall k :: s.flush.start <= k < s.flush.start + s.flush.count ==> s.slots[k] != []
    ensures FullInv(SendNow(s, taken))
  {
    hide Cat;
  }

  lemma ReadIsFull(s: State)
    requires FullInv(s) && s.flush.Reading? && |s.flush.read| < |s.flush.offered| && s.flush.start + |s.flush.read| < |s.slots|
    requires |Cat(s.flush.read)| < s.flush.taken
    ensures FullInv(ReadOne(s))
  {
    hide Cat;
  }

  lemma SettleIsFull(s: State)
    requires FlushInv(s) && FullInv(s) && CanSettle(s)
    ensures FullInv(Settle(s))
  {
    NoneBlank(s);
    hide FlushInv, Blank, Cat;
  }

  lemma FlushStepIsFull(replies: Replies, s: State, step: Step)
    requires FlushInv(s) && FullInv(s) && Enabled(replies, s, step) && OfferWritten(s, step) && s.pcs[step.w].Flushing?
    ensures FullInv(Do(replies, s, step))
  {
    hide Cat, SendNow, ReadOne, Settle, CheckInv;
    match s.flush
    case Held(_, _, _) => SendIsFull(s, step.taken);
    case Reading(_, _, _, _, _) => ReadIsFull(s);
    case Found(_, _, _, _, _, _) => SettleIsFull(s);
    case Moved(_, _) =>
  }

  lemma FullStepKeeps(replies: Replies, s: State, step: Step)
    requires Inv(s) && FullInv(s) && Enabled(replies, s, step) && OfferWritten(s, step)
    ensures FullInv(Do(replies, s, step))
  {
    assert FlushInv(s);
    hide Inv, FullInv, OfferWritten, Do, Enabled, FlushInv;
    if s.pcs[step.w].Flushing? {
      FlushStepIsFull(replies, s, step);
    } else {
      OtherStepsAreFull(replies, s, step);
    }
  }

  lemma NoneBlank(s: State)
    requires FlushInv(s) && FullInv(s) && s.flush.Found?
    ensures Blank(s.flush.start, s.flush.read) == {}
  {
    hide Cat, OfferInv;
    forall j | 0 <= j < |s.flush.read| ensures s.flush.read[j] != [] {
      assert ReadInv(s, s.flush.start, s.flush.offered, s.flush.read, j);
    }
  }

  lemma {:induction false} FullRunKeeps(replies: Replies, s: State, steps: seq<Step>)
    requires NonEmpty(replies) && Inv(s) && FullInv(s) && InOrder(replies, s, steps) && OffersWritten(replies, s, steps)
    ensures FullInv(After(replies, s, steps))
    decreases |steps|
  {
    hide Inv, FullInv, Do, Enabled, Orderly, NonEmpty, OfferWritten;
    if steps != [] {
      StepKeeps(replies, s, steps[0]);
      FullStepKeeps(replies, s, steps[0]);
      FullRunKeeps(replies, Do(replies, s, steps[0]), steps[1..]);
    }
  }

  /** A flush that waited for the slots that it offers, as the loop over their flags is meant to, would lose nothing. */
  lemma WrittenOffersConserve(replies: Replies, steps: seq<Step>)
    requires NonEmpty(replies) && InOrder(replies, Init(replies), steps) && OffersWritten(replies, Init(replies), steps)
    requires !InCheck(After(replies, Init(replies), steps))
    ensures var s := After(replies, Init(replies), steps);
      s.windexlast <= |s.slots| && Conserved(s)
  {
    InitInv(replies);
    FullRunKeeps(replies, Init(replies), steps);
    ConservedExactly(replies, steps);
  }
}
