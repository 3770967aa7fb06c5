/**
 What the workers write: over all runs of Backlog each worker's two slots hold its own reply,
 the line first, and the slots follow one another in the order in which the workers reserved.
 */
module RepliesInPlace {
  import opened Bytes
  import opened Reply
  import opened Backlog
  import opened BacklogSends
  import opened BacklogRuns
  import opened AllFlushes

  /** The workers of a run in the order of their first steps, behind those who have stepped before. */
  function Reservers(order: seq<nat>, steps: seq<Step>): seq<nat>
    decreases |steps|
  {
    if steps == [] then order
    else Reservers(if steps[0].w in order then order else order + [steps[0].w], steps[1..])
  }

  /** What the j-th worker to reserve has written to its two slots. */
  ghost predicate PairWritten(replies: Replies, s: State, order: seq<nat>, j: nat)
    requires j < |order|
  {
    var w := order[j];
    && w < |s.pcs| == |replies| && !s.pcs[w].Outside? && 2 * j + 1 < |s.written|
    && (HoldsSlots(s.pcs[w]) ==> s.pcs[w].index == 2 * j)
    && s.written[2 * j] == (if s.pcs[w].Reserved? then None else Some(Marked(replies[w].0, 2 * j)))
    && s.written[2 * j + 1] ==
         (if s.pcs[w].Reserved? || s.pcs[w].LineIn? then None else Some(Marked(replies[w].1, 2 * j + 1)))
  }

  ghost predicate InPlace(replies: Replies, s: State, order: seq<nat>) {
    && |s.written| == |s.slots| == 2 * |order| && |s.pcs| == |replies|
    && (forall i, j :: 0 <= i < j < |order| ==> order[i] != order[j])
    && (forall j :: 0 <= j < |order| ==> PairWritten(replies, s, order, j))
    && (forall w :: 0 <= w < |s.pcs| ==> (s.pcs[w].Outside? <==> w !in order))
  }

  /** What a step does to the slots written and to the other workers. */
  lemma StepFrame(replies: Replies, s: State, step: Step)
    requires Enabled(replies, s, step)
    ensures var u, w := Do(replies, s, step), step.w;
      var pc := s.pcs[w];
      && |u.pcs| == |s.pcs| && u.pcs == s.pcs[w := u.pcs[w]] && |u.written| == |u.slots|
      && (if pc.Outside? then u.written == s.written + [None, None] && u.pcs[w] == Reserved(|s.slots|)
          else if pc.Reserved? then
            u.written == s.written[pc.index := Some(Marked(replies[w].0, pc.index))] && u.pcs[w] == LineIn(pc.index)
          else if pc.LineIn? then
            && u.written == s.written[pc.index + 1 := Some(Marked(replies[w].1, pc.index + 1))]
            && u.pcs[w] == ValueIn(pc.index)
          else
            && u.written == s.written && !u.pcs[w].Outside? && !u.pcs[w].Reserved? && !u.pcs[w].LineIn?
            && (HoldsSlots(u.pcs[w]) ==> HoldsSlots(pc) && u.pcs[w].index == pc.index))
  {
    hide Cat, Blank, Marked;
  }

  lemma ReserveInPlace(replies: Replies, s: State, step: Step, order: seq<nat>)
    requires InPlace(replies, s, order) && Enabled(replies, s, step) && s.pcs[step.w].Outside?
    ensures step.w !in order && InPlace(replies, Do(replies, s, step), order + [step.w])
  {
    StepFrame(replies, s, step);
    hide Do, Enabled, Marked;
    var u, more := Do(replies, s, step), order + [step.w];
    forall j | 0 <= j < |more| ensures PairWritten(replies, u, more, j) {
      if j < |order| {
        assert PairWritten(replies, s, order, j);
      }
    }
  }

  lemma MoveInPlace(replies: Replies, s: State, step: Step, order: seq<nat>)
    requires InPlace(replies, s, order) && Enabled(replies, s, step) && !s.pcs[step.w].Outside?
    ensures step.w in order && InPlace(replies, Do(replies, s, step), order)
  {
    StepFrame(replies, s, step);
    var u := Do(replies, s, step);
    hide Do, Enabled, Marked;
    var own :| 0 <= own < |order| && order[own] == step.w;
    assert PairWritten(replies, s, order, own);
    forall j | 0 <= j < |order| ensures PairWritten(replies, u, order, j) {
      assert PairWritten(replies, s, order, j);
      assert j != own ==> order[j] != step.w;
    }
  }

  lemma {:induction false} RunInPlace(replies: Replies, s: State, steps: seq<Step>, order: seq<nat>)
    requires InPlace(replies, s, order) && Legal(replies, s, steps)
    ensures InPlace(replies, Reached(replies, s, steps), Reservers(order, steps))
    decreases |steps|
  {
    if steps != [] {
      if s.pcs[steps[0].w].Outside? {
        ReserveInPlace(replies, s, steps[0], order);
      } else {
        MoveInPlace(replies, s, steps[0], order);
      }
      hide InPlace, Do;
      RunInPlace(replies, Do(replies, s, steps[0]), steps[1..], if steps[0].w in order then order else order + [steps[0].w]);
    }
  }

  /**
   In every run: the slots are those of the workers that have taken a step, two for each in the
   order of their first steps; what a worker has written of its reply is there, the line in the
   first slot and the value in the second, and nothing else is.
   */
  lemma WorkersWriteTheirOwn(replies: Replies, steps: seq<Step>)
    requires Legal(replies, Init(replies), steps)
    ensures InPlace(replies, Reached(replies, Init(replies), steps), Reservers([], steps))
  {
    RunInPlace(replies, Init(replies), steps, []);
  }

  /** The replies of some workers, one after another. */
  function Texts(replies: Replies, order: seq<nat>): seq<byte> {
    if order == [] then []
    else
      var w := order[|order| - 1];
      Texts(replies, order[..|order| - 1]) + if w < |replies| then replies[w].0 + replies[w].1 else []
  }

  lemma SeenOfSum(a: seq<Mark>, b: seq<Mark>)
    ensures Seen(a + b) == Seen(a) + Seen(b)
  {
  }

  /** The pairs up to the n-th, all of them written. */
  lemma {:induction false} PairsSeen(replies: Replies, all: Slots, order: seq<nat>, n: nat)
    requires n <= |order| && |all| == 2 * |order| && (forall j :: 0 <= j < |order| ==> order[j] < |replies|)
    requires forall j :: 0 <= j < |order| ==>
      all[2 * j] == Marked(replies[order[j]].0, 2 * j) && all[2 * j + 1] == Marked(replies[order[j]].1, 2 * j + 1)
    ensures Seen(Cat(all[0..2 * n])) == Texts(replies, order[..n])
  {
    if n == 0 {
      assert all[0..0] == [] && Cat<Mark>([]) == [];
    } else {
      var m := n - 1;
      PairsSeen(replies, all, order, m);
      CatGrow(all, 0, 2 * m);
      CatGrow(all, 0, 2 * m + 1);
      hide Cat, Seen, Marked;
      assert order[..n][..m] == order[..m] && order[..n][m] == order[m];
      OnePairSeen(replies[order[m]].0, replies[order[m]].1, 2 * m, Cat(all[0..2 * m]));
    }
  }

  lemma OnePairSeen(line: seq<byte>, value: seq<byte>, slot: nat, before: seq<Mark>)
    ensures Seen(before + Marked(line, slot) + Marked(value, slot + 1)) == Seen(before) + (line + value)
  {
    SeenOfSum(before, Marked(line, slot));
    SeenOfSum(before + Marked(line, slot), Marked(value, slot + 1));
    SeenOfMarked(line, slot);
    SeenOfMarked(value, slot + 1);
    hide Seen, Marked;
    assert Seen(before) + line + value == Seen(before) + (line + value);
  }

  lemma AllInPlace(replies: Replies, s: State, order: seq<nat>)
    requires InPlace(replies, s, order) && Finished(s)
    ensures forall j :: 0 <= j < |order| ==> order[j] < |replies|
    ensures Seen(Cat(Written(s))) == Texts(replies, order)
  {
    hide Cat, Seen, Marked;
    var all: Slots := Written(s);
    forall j | 0 <= j < |order|
      ensures order[j] < |replies|
      ensures all[2 * j] == Marked(replies[order[j]].0, 2 * j) && all[2 * j + 1] == Marked(replies[order[j]].1, 2 * j + 1)
    {
      assert PairWritten(replies, s, order, j);
    }
    PairsSeen(replies, all, order, |order|);
    assert all[0..2 * |order|] == all && order[..|order|] == order;
  }

  /**
   When all workers are done, what has been written is their replies, each once, in the order
   of their first steps; and that is what the client sees of the bytes sent and left if the
   run is orderly, no check counted a slot that was empty when it was sent and none was passed
   empty.
   */
  lemma ClientSeesReplies(replies: Replies, steps: seq<Step>)
    requires NonEmpty(replies) && Legal(replies, Init(replies), steps) && Finished(Reached(replies, Init(replies), steps))
    ensures var s, order := Reached(replies, Init(replies), steps), Reservers([], steps);
      && (forall w :: 0 <= w < |replies| <==> w in order) && (forall i, j :: 0 <= i < j < |order| ==> order[i] != order[j])
      && Seen(Cat(Written(s))) == Texts(replies, order) && s.windexlast <= |s.slots|
      && (InOrder(replies, Init(replies), steps) && s.miscounted == {} && s.skipped == {} ==>
            Seen(s.wire + Cat(Rest(s))) == Texts(replies, order))
  {
    WorkersWriteTheirOwn(replies, steps);
    FinishedInEveryRun(replies, steps);
    var s, order := Reached(replies, Init(replies), steps), Reservers([], steps);
    hide Reservers, Legal, Reached, InOrder, Cat, Seen;
    AllInPlace(replies, s, order);
    forall w ensures 0 <= w < |replies| <==> w in order {
      if w in order {
        var j :| 0 <= j < |order| && order[j] == w;
        assert PairWritten(replies, s, order, j);
      }
    }
  }
}
