/**
 What totalsize counts: in every run of Backlog, racing flushes included, it is the number of
 bytes that workers have added to it and that have not been sent, but for flushes that are still
 to take their bytes off it; in the arithmetic of uint32_t.
 */
module Totals {
  import opened Bytes
  import opened Reply
  import opened Backlog
  import opened BacklogRuns
  import opened AllFlushes

  /** What a worker has added to totalsize. */
  function Added(replies: Replies, pc: Pc, w: nat): nat
    requires w < |replies|
  {
    if pc.Outside? || pc.Reserved? || pc.LineIn? || pc.ValueIn? then 0 else |replies[w].0| + |replies[w].1|
  }

  function AllAdded(replies: Replies, pcs: seq<Pc>): nat
    requires |pcs| <= |replies|
  {
    if pcs == [] then 0 else AllAdded(replies, pcs[..|pcs| - 1]) + Added(replies, pcs[|pcs| - 1], |pcs| - 1)
  }

  /** What a worker has sent, and is to take off totalsize next. */
  function Due(pc: Pc): nat {
    if pc.Released? then pc.taken else 0
  }

  function AllDue(pcs: seq<Pc>): nat {
    if pcs == [] then 0 else AllDue(pcs[..|pcs| - 1]) + Due(pcs[|pcs| - 1])
  }

  /** What the flush that holds the flag has sent. */
  function Sending(flush: Flush): nat {
    if flush.Reading? || flush.Found? || flush.Moved? then flush.taken else 0
  }

  lemma {:induction false} SumsAfter(replies: Replies, pcs: seq<Pc>, w: nat, pc: Pc)
    requires w < |pcs| <= |replies|
    ensures AllAdded(replies, pcs[w := pc]) == AllAdded(replies, pcs) - Added(replies, pcs[w], w) + Added(replies, pc, w)
    ensures AllDue(pcs[w := pc]) == AllDue(pcs) - Due(pcs[w]) + Due(pc)
  {
    var n := |pcs| - 1;
    hide Added, Due;
    if w == n {
      assert pcs[w := pc][..n] == pcs[..n];
    } else {
      assert pcs[w := pc][..n] == pcs[..n][w := pc];
      SumsAfter(replies, pcs[..n], w, pc);
    }
  }

  /** The same remainder by 2^32. */
  predicate Alike(x: int, y: int) {
    (x - y) % UINT32_RANGE == 0
  }

  lemma AlikeTotals(x: int, y: int, k: int)
    requires Alike(x, y)
    ensures Alike(x % UINT32_RANGE, y) && Alike(x + k, y + k) && Alike((x + k) % UINT32_RANGE, y + k)
  {
    Wrapped(x);
    Wrapped(x + k);
    Multiples(x - y, x % UINT32_RANGE - x);
    Multiples(x - y, (x + k) % UINT32_RANGE - (x + k));
  }

  lemma Wrapped(x: int)
    ensures (x % UINT32_RANGE - x) % UINT32_RANGE == 0
  {
    assert x % UINT32_RANGE - x == -(x / UINT32_RANGE) * UINT32_RANGE;
  }

  lemma Multiples(x: int, y: int)
    requires x % UINT32_RANGE == 0 && y % UINT32_RANGE == 0
    ensures (x + y) % UINT32_RANGE == 0
  {
  }

  ghost predicate TotalInv(replies: Replies, s: State) {
    && |s.pcs| == |replies| && s.totalsize < UINT32_RANGE
    && Alike(s.totalsize, AllAdded(replies, s.pcs) - |s.wire| + AllDue(s.pcs) + Sending(s.flush))
  }

  /** What a step changes of it all. */
  lemma StepAdds(replies: Replies, s: State, step: Step)
    requires Enabled(replies, s, step)
    ensures var u, w := Do(replies, s, step), step.w;
      var more := Added(replies, u.pcs[w], w) - Added(replies, s.pcs[w], w) - (|u.wire| - |s.wire|)
                  + Due(u.pcs[w]) - Due(s.pcs[w]) + Sending(u.flush) - Sending(s.flush);
      && |u.pcs| == |s.pcs| && u.pcs == s.pcs[w := u.pcs[w]]
      && (if more == 0 then u.totalsize == s.totalsize || u.totalsize == s.totalsize % UINT32_RANGE
          else u.totalsize == (s.totalsize + more) % UINT32_RANGE)
  {
    hide Cat, Blank, Marked;
    var pc := s.pcs[step.w];
    if pc.Released? {
      Less(s.totalsize, pc.taken);
    }
  }

  lemma Less(x: nat, y: nat)
    ensures (x + UINT32_RANGE - y % UINT32_RANGE) % UINT32_RANGE == (x - y) % UINT32_RANGE
  {
    var r := (x - y) % UINT32_RANGE;
    var q := (x - y) / UINT32_RANGE + y / UINT32_RANGE + 1;
    assert x + UINT32_RANGE - y % UINT32_RANGE == q * UINT32_RANGE + r;
    DivisionIsUnique(x + UINT32_RANGE - y % UINT32_RANGE, UINT32_RANGE, q, r);
  }

  lemma StepKeepsTotal(replies: Replies, s: State, step: Step)
    requires TotalInv(replies, s) && Enabled(replies, s, step)
    ensures TotalInv(replies, Do(replies, s, step))
  {
    StepAdds(replies, s, step);
    hide Do, Enabled, Added, Due, Sending, AllAdded, AllDue, Alike;
    var u, w := Do(replies, s, step), step.w;
    SumsAfter(replies, s.pcs, w, u.pcs[w]);
    var more := Added(replies, u.pcs[w], w) - Added(replies, s.pcs[w], w) - (|u.wire| - |s.wire|)
                + Due(u.pcs[w]) - Due(s.pcs[w]) + Sending(u.flush) - Sending(s.flush);
    AlikeTotals(s.totalsize, AllAdded(replies, s.pcs) - |s.wire| + AllDue(s.pcs) + Sending(s.flush), more);
  }

  lemma {:induction false} RunKeepsTotal(replies: Replies, s: State, steps: seq<Step>)
    requires TotalInv(replies, s) && Legal(replies, s, steps)
    ensures TotalInv(replies, Reached(replies, s, steps))
    decreases |steps|
  {
    hide TotalInv, Do, Enabled;
    if steps != [] {
      StepKeepsTotal(replies, s, steps[0]);
      RunKeepsTotal(replies, Do(replies, s, steps[0]), steps[1..]);
    }
  }

  /** The size of all replies. */
  function Sizes(replies: Replies): nat {
    if replies == [] then 0
    else
      var last := replies[|replies| - 1];
      Sizes(replies[..|replies| - 1]) + |last.0| + |last.1|
  }

  lemma {:induction false} NoneAdded(replies: Replies, pcs: seq<Pc>)
    requires |pcs| <= |replies| && forall w :: 0 <= w < |pcs| ==> pcs[w] == Outside
    ensures AllAdded(replies, pcs) == 0 && AllDue(pcs) == 0
  {
    if pcs != [] {
      NoneAdded(replies, pcs[..|pcs| - 1]);
    }
  }

  lemma {:induction false} AllDone(replies: Replies, pcs: seq<Pc>)
    requires |pcs| <= |replies| && forall w :: 0 <= w < |pcs| ==> pcs[w] == Done
    ensures AllAdded(replies, pcs) == Sizes(replies[..|pcs|]) && AllDue(pcs) == 0
  {
    var n := |pcs|;
    if n == 0 {
      assert replies[..0] == [];
    } else {
      AllDone(replies, pcs[..n - 1]);
      assert replies[..n][..n - 1] == replies[..n - 1] && replies[..n][n - 1] == replies[n - 1];
    }
  }

  /** In every run totalsize is what was added less what was sent, plus what is still to be taken off. */
  lemma TotalCountsUnsent(replies: Replies, steps: seq<Step>)
    requires Legal(replies, Init(replies), steps)
    ensures TotalInv(replies, Reached(replies, Init(replies), steps))
  {
    NoneAdded(replies, Init(replies).pcs);
    RunKeepsTotal(replies, Init(replies), steps);
  }

  /** And when all workers are done it is the size of all replies less what was sent, whatever was sent twice or never. */
  lemma FinishedTotal(replies: Replies, steps: seq<Step>)
    requires NonEmpty(replies) && Legal(replies, Init(replies), steps) && Finished(Reached(replies, Init(replies), steps))
    ensures var s := Reached(replies, Init(replies), steps);
      s.totalsize == (Sizes(replies) - |s.wire|) % UINT32_RANGE
  {
    TotalCountsUnsent(replies, steps);
    PastInit(replies);
    RunGoesOn(replies, Init(replies), steps);
    var s := Reached(replies, Init(replies), steps);
    hide Reached, Legal, OwnBytes, WireInv;
    AllWritten(s);
    AllDone(replies, s.pcs);
    assert replies[..|s.pcs|] == replies;
    SameRemainder(s.totalsize, Sizes(replies) - |s.wire|);
  }

  lemma SameRemainder(x: int, y: int)
    requires 0 <= x < UINT32_RANGE && Alike(x, y)
    ensures x == y % UINT32_RANGE
  {
    Wrapped(y);
    Multiples(x - y, -(y % UINT32_RANGE - y));
  }
}
