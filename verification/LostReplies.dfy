/** Runs of the reply buffer that lose bytes or send them twice. */
module LostReplies {
  import opened Bytes
  import opened Reply
  import opened Backlog
  import opened BacklogSends
  import opened BacklogChecks
  import opened BacklogRuns

  lemma InOrderCons(replies: Replies, s: State, step: Step, rest: seq<Step>)
    requires Enabled(replies, s, step) && Orderly(s, step) && InOrder(replies, Do(replies, s, step), rest)
    ensures InOrder(replies, s, [step] + rest)
    ensures After(replies, s, [step] + rest) == After(replies, Do(replies, s, step), rest)
  {
    assert ([step] + rest)[1..] == rest;
  }

  lemma Nothing(replies: Replies, s: State) returns (steps: seq<Step>)
    ensures steps == [] && InOrder(replies, s, steps) && After(replies, s, steps) == s
  {
    steps := [];
  }

  lemma {:induction false} RunOn(replies: Replies, s: State, steps: seq<Step>, more: seq<Step>)
    requires InOrder(replies, s, steps) && InOrder(replies, After(replies, s, steps), more)
    ensures InOrder(replies, s, steps + more)
    ensures After(replies, s, steps + more) == After(replies, After(replies, s, steps), more)
    decreases |steps|
  {
    hide Do, Enabled, Orderly;
    if steps == [] {
      assert steps + more == more;
    } else {
      assert (steps + more)[1..] == steps[1..] + more;
      RunOn(replies, Do(replies, s, steps[0]), steps[1..], more);
    }
  }

  lemma TwoEmptyAndOne(line: seq<Mark>)
    ensures Cat([[], [], line]) == line && Cat<Mark>([[]]) == [] && Cat<Mark>([[], []]) == [] && Cat<Mark>([]) == []
  {
    CatOne(line);
    var none: seq<Mark> := [];
    CatOfEmpty([none]);
    CatOfEmpty([none, none]);
    CatAppend([none, none], [line]);
    assert [none, none] + [line] == [[], [], line];
  }

  /** Two replies, of which the second alone is due for a flush. */
  predicate SecondIsLarge(replies: Replies) {
    && |replies| == 2 && NonEmpty(replies) && |replies[1].1| > FLUSH_SIZE
    && |replies[0].0| + |replies[0].1| + |replies[1].0| + |replies[1].1| < UINT32_RANGE
  }

  /** The first worker has reserved; the second one, behind it, has filled its slots and taken the flag. */
  function FlagTaken(replies: Replies): State
    requires |replies| == 2
  {
    var line, value := Marked(replies[1].0, 2), Marked(replies[1].1, 3);
    State([[], [], line, value], 0, |line| + |value|, [], [Reserved(0), Flushing], Held(1, 0, 3), 0,
          [None, None, Some(line), Some(value)], {}, {})
  }

  lemma SecondTakesFlag(replies: Replies) returns (steps: seq<Step>)
    requires SecondIsLarge(replies)
    ensures InOrder(replies, Init(replies), steps) && After(replies, Init(replies), steps) == FlagTaken(replies)
  {
    hide InOrder, After, Cat, SendNow, ReadOne, Settle, FlushEnabled;
    var s0 := Init(replies);
    assert s0.pcs == [Outside, Outside];
    var s1 := Do(replies, s0, Move(0));
    var s2 := Do(replies, s1, Move(1));
    var s3 := Do(replies, s2, Move(1));
    var s4 := Do(replies, s3, Move(1));
    var s5 := Do(replies, s4, Move(1));
    var s6 := Do(replies, s5, Move(1));
    var s7 := Do(replies, s6, Move(1));
    assert s7 == FlagTaken(replies);
    steps := Nothing(replies, s7);
    InOrderCons(replies, s6, Move(1), steps);
    steps := [Move(1)] + steps;
    InOrderCons(replies, s5, Move(1), steps);
    steps := [Move(1)] + steps;
    InOrderCons(replies, s4, Move(1), steps);
    steps := [Move(1)] + steps;
    InOrderCons(replies, s3, Move(1), steps);
    steps := [Move(1)] + steps;
    InOrderCons(replies, s2, Move(1), steps);
    steps := [Move(1)] + steps;
    InOrderCons(replies, s1, Move(1), steps);
    steps := [Move(1)] + steps;
    InOrderCons(replies, s0, Move(0), steps);
    steps := [Move(0)] + steps;
  }

  /** sendmsg takes the line of the second worker, behind two empty slots. */
  function LineSent(replies: Replies): State
    requires |replies| == 2
  {
    var s := FlagTaken(replies);
    var line := Marked(replies[1].0, 2);
    s.(wire := line, flush := Reading(1, 0, |line|, [[], [], line], []))
  }

  lemma SendsLine(replies: Replies)
    requires SecondIsLarge(replies)
    ensures Enabled(replies, FlagTaken(replies), Send(1, |replies[1].0|)) && Orderly(FlagTaken(replies), Send(1, |replies[1].0|))
    ensures Do(replies, FlagTaken(replies), Send(1, |replies[1].0|)) == LineSent(replies)
  {
    var line := Marked(replies[1].0, 2);
    TwoEmptyAndOne(line);
    hide Cat;
    assert FlagTaken(replies).slots[0..3] == [[], [], line];
    assert [] + line[..|line|] == line;
  }

  /** A worker whose slots others have flushed past finds nothing to offer. */
  lemma FirstFinishes(replies: Replies, s: State, total: nat) returns (steps: seq<Step>)
    requires |replies| == 2 && |s.written| == |s.slots| && 1 <= s.windexlast <= |s.slots|
    requires s.pcs == [Counted(0, total), Done] && s.flush.Free? && FlushDue(0, total, s.windexlast)
    ensures InOrder(replies, s, steps) && After(replies, s, steps) == s.(pcs := [Done, Done])
  {
    assert Cat<Mark>([]) == [];
    hide InOrder, After, Cat, ReadOne, Settle;
    var s1 := Do(replies, s, Move(0));
    var s2 := Do(replies, s1, Move(0));
    assert s2.flush == Held(0, s.windexlast, 0) && s2.slots[s.windexlast..s.windexlast + 0] == [];
    var s3 := Do(replies, s2, Send(0, 0));
    var s4 := Do(replies, s3, Move(0));
    assert s4 == s.(pcs := [Done, Done]);
    steps := Nothing(replies, s4);
    InOrderCons(replies, s3, Move(0), steps);
    steps := [Move(0)] + steps;
    InOrderCons(replies, s2, Send(0, 0), steps);
    steps := [Send(0, 0)] + steps;
    InOrderCons(replies, s1, Move(0), steps);
    steps := [Move(0)] + steps;
    InOrderCons(replies, s, Move(0), steps);
    steps := [Move(0)] + steps;
  }

  // ---- the flush passes slots that are still empty

  /** The check has found two empty slots and the line. */
  function LineFound(replies: Replies): State
    requires |replies| == 2
  {
    var line := Marked(replies[1].0, 2);
    LineSent(replies).(flush := Found(1, 0, |line|, [[], [], line], [[], [], line], |line|))
  }

  lemma ReadsThree(replies: Replies) returns (steps: seq<Step>)
    requires SecondIsLarge(replies)
    ensures InOrder(replies, LineSent(replies), steps) && After(replies, LineSent(replies), steps) == LineFound(replies)
  {
    TwoEmptyAndOne(Marked(replies[1].0, 2));
    hide InOrder, After, Cat, Settle, SendNow;
    var s0 := LineSent(replies);
    var s1 := Do(replies, s0, Move(1));
    assert s1.flush.read == [[]];
    var s2 := Do(replies, s1, Move(1));
    assert s2.flush.read == [[], []];
    var s3 := Do(replies, s2, Move(1));
    assert s3.flush.read == [[], [], Marked(replies[1].0, 2)];
    assert s3 == LineFound(replies);
    steps := Nothing(replies, s3);
    InOrderCons(replies, s2, Move(1), steps);
    steps := [Move(1)] + steps;
    InOrderCons(replies, s1, Move(1), steps);
    steps := [Move(1)] + steps;
    InOrderCons(replies, s0, Move(1), steps);
    steps := [Move(1)] + steps;
  }

  lemma FirstTwoBlank(line: seq<Mark>)
    requires line != []
    ensures Blank(0, [[], [], line]) == {0, 1}
  {
    var read := [[], [], line];
    assert read[0] == [] && read[1] == [];
  }

  lemma SettlesPastThree(replies: Replies)
    requires SecondIsLarge(replies)
    ensures CanSettle(LineFound(replies))
    ensures var s := LineFound(replies);
      Settle(s) == s.(windexlast := 3, skipped := {0, 1}, flush := Moved(1, |replies[1].0|))
  {
    FirstTwoBlank(Marked(replies[1].0, 2));
    hide Blank;
    assert {} + {0, 1} == {0, 1};
  }

  /** The second worker is done, windexlast is past its line, and the first one has not written. */
  function PassedThree(replies: Replies): State
    requires |replies| == 2
  {
    var s, line := LineFound(replies), |replies[1].0|;
    s.(windexlast := 3, skipped := {0, 1}, flush := Free, pcs := [Reserved(0), Done],
       totalsize := (s.totalsize + UINT32_RANGE - line % UINT32_RANGE) % UINT32_RANGE)
  }

  lemma SecondFinishes(replies: Replies) returns (steps: seq<Step>)
    requires SecondIsLarge(replies)
    ensures InOrder(replies, LineFound(replies), steps) && After(replies, LineFound(replies), steps) == PassedThree(replies)
  {
    SettlesPastThree(replies);
    hide InOrder, After, Cat, ReadOne, SendNow, Settle;
    var s0 := LineFound(replies);
    var s1 := Do(replies, s0, Move(1));
    var s2 := Do(replies, s1, Move(1));
    var s3 := Do(replies, s2, Move(1));
    assert s3 == PassedThree(replies);
    steps := Nothing(replies, s3);
    InOrderCons(replies, s2, Move(1), steps);
    steps := [Move(1)] + steps;
    InOrderCons(replies, s1, Move(1), steps);
    steps := [Move(1)] + steps;
    InOrderCons(replies, s0, Move(1), steps);
    steps := [Move(1)] + steps;
  }

  /** Only then does the first worker write its slots. */
  lemma ThenWrites(replies: Replies) returns (steps: seq<Step>, total: nat)
    requires SecondIsLarge(replies)
    ensures InOrder(replies, PassedThree(replies), steps)
    ensures var s := After(replies, PassedThree(replies), steps);
      && |s.slots| == |s.written| == 4 && s.windexlast == 3 && s.skipped == {0, 1} && s.flush.Free?
      && s.pcs == [Counted(0, total), Done] && total > FLUSH_SIZE
  {
    hide InOrder, After, Cat, ReadOne, SendNow, Settle;
    var s0 := PassedThree(replies);
    var s1 := Do(replies, s0, Move(0));
    var s2 := Do(replies, s1, Move(0));
    var s3 := Do(replies, s2, Move(0));
    total := s3.totalsize;
    assert s3.pcs == [Counted(0, total), Done];
    steps := Nothing(replies, s3);
    InOrderCons(replies, s2, Move(0), steps);
    steps := [Move(0)] + steps;
    InOrderCons(replies, s1, Move(0), steps);
    steps := [Move(0)] + steps;
    InOrderCons(replies, s0, Move(0), steps);
    steps := [Move(0)] + steps;
  }

  lemma SendsLineFirst(replies: Replies) returns (steps: seq<Step>)
    requires SecondIsLarge(replies)
    ensures InOrder(replies, Init(replies), steps) && After(replies, Init(replies), steps) == LineSent(replies)
  {
    SendsLine(replies);
    steps := SecondTakesFlag(replies);
    hide Do, Enabled, Orderly, After, InOrder;
    var nothing := Nothing(replies, LineSent(replies));
    var send := Send(1, |replies[1].0|);
    InOrderCons(replies, FlagTaken(replies), send, nothing);
    RunOn(replies, Init(replies), steps, [send] + nothing);
    steps := steps + ([send] + nothing);
  }

  /** A reply that is reserved first and written last, behind a flush, is never sent. */
  lemma ReplyCanBeLost(replies: Replies) returns (steps: seq<Step>)
    requires SecondIsLarge(replies)
    ensures InOrder(replies, Init(replies), steps) && Finished(After(replies, Init(replies), steps))
    ensures var s := After(replies, Init(replies), steps);
      s.windexlast <= |s.slots| && s.skipped == {0, 1} && !Conserved(s)
  {
    hide InOrder, After, Conserved, Do, LineSent, LineFound, PassedThree;
    steps := SendsLineFirst(replies);
    var more := ReadsThree(replies);
    RunOn(replies, Init(replies), steps, more);
    steps := steps + more;
    more := SecondFinishes(replies);
    RunOn(replies, Init(replies), steps, more);
    steps := steps + more;
    var total;
    more, total := ThenWrites(replies);
    RunOn(replies, Init(replies), steps, more);
    steps := steps + more;
    more := FirstFinishes(replies, After(replies, Init(replies), steps), total);
    RunOn(replies, Init(replies), steps, more);
    steps := steps + more;
    FinishedConservedExactly(replies, steps);
  }

  // ---- the check counts a slot that was empty when it was sent

  /** The first worker has filled its first slot, and the check has counted it. */
  function FirstCounted(replies: Replies): State
    requires |replies| == 2
  {
    var first, line, value := Marked(replies[0].0, 0), Marked(replies[1].0, 2), Marked(replies[1].1, 3);
    State([first, [], line, value], 1, |line| + |value|, line, [LineIn(0), Flushing], Moved(1, |line|), 0,
          [Some(first), None, Some(line), Some(value)], {}, {0})
  }

  lemma CountsFirst(replies: Replies) returns (steps: seq<Step>)
    requires SecondIsLarge(replies) && |replies[0].0| == |replies[1].0|
    ensures InOrder(replies, LineSent(replies), steps) && After(replies, LineSent(replies), steps) == FirstCounted(replies)
  {
    TwoEmptyAndOne([]);
    hide InOrder, After, Cat, SendNow;
    var s0 := LineSent(replies);
    var s1 := Do(replies, s0, Move(0));
    var s2 := Do(replies, s1, Move(1));
    assert s2.flush.Found? && s2.flush.read == [s1.slots[0]] && s2.miscounted == {0};
    hide ReadOne;
    assert Blank(0, s2.flush.read) == {};
    var s3 := Do(replies, s2, Move(1));
    assert s3 == FirstCounted(replies);
    steps := Nothing(replies, s3);
    InOrderCons(replies, s2, Move(1), steps);
    steps := [Move(1)] + steps;
    InOrderCons(replies, s1, Move(1), steps);
    steps := [Move(1)] + steps;
    InOrderCons(replies, s0, Move(0), steps);
    steps := [Move(0)] + steps;
  }

  lemma ThenWritesValue(replies: Replies) returns (steps: seq<Step>, total: nat)
    requires SecondIsLarge(replies)
    ensures InOrder(replies, FirstCounted(replies), steps)
    ensures var s := After(replies, FirstCounted(replies), steps);
      && s.slots == [Marked(replies[0].0, 0), Marked(replies[0].1, 1), Marked(replies[1].0, 2), Marked(replies[1].1, 3)]
      && s.written == [Some(s.slots[0]), Some(s.slots[1]), Some(s.slots[2]), Some(s.slots[3])]
      && s.windexlast == 1 && s.wire == s.slots[2] && s.skipped == {} && s.miscounted == {0} && s.flush.Free?
      && s.pcs == [Counted(0, total), Done] && total > FLUSH_SIZE
  {
    hide InOrder, After, Cat, SendNow, ReadOne, Settle;
    var s0 := FirstCounted(replies);
    var s1 := Do(replies, s0, Move(1));
    var s2 := Do(replies, s1, Move(1));
    var s3 := Do(replies, s2, Move(0));
    var s4 := Do(replies, s3, Move(0));
    total := s4.totalsize;
    assert s4.pcs == [Counted(0, total), Done];
    steps := Nothing(replies, s4);
    InOrderCons(replies, s3, Move(0), steps);
    steps := [Move(0)] + steps;
    InOrderCons(replies, s2, Move(0), steps);
    steps := [Move(0)] + steps;
    InOrderCons(replies, s1, Move(1), steps);
    steps := [Move(1)] + steps;
    InOrderCons(replies, s0, Move(1), steps);
    steps := [Move(1)] + steps;
  }

  lemma FourSlots(a: seq<Mark>, b: seq<Mark>, c: seq<Mark>, d: seq<Mark>)
    ensures Cat([a, b, c, d]) == a + b + c + d && Cat([b, c, d]) == b + c + d
  {
    hide Cat;
    CatOne(d);
    CatCons(c, [d]);
    CatCons(b, [c, d]);
    CatCons(a, [b, c, d]);
    assert [c] + [d] == [c, d] && [b] + [c, d] == [b, c, d] && [a] + [b, c, d] == [a, b, c, d];
    assert b + (c + d) == b + c + d && a + (b + c + d) == a + b + c + d;
  }

  /**
   A slot filled between sendmsg and the check is counted instead of the one that was sent: no
   slot is passed empty, and yet the first worker's line is never sent, and the second one's
   will be sent twice. The client sees the difference if the lines differ.
   */
  lemma SlotCanBeMiscounted(replies: Replies) returns (steps: seq<Step>)
    requires SecondIsLarge(replies) && |replies[0].0| == |replies[1].0|
    ensures InOrder(replies, Init(replies), steps) && Finished(After(replies, Init(replies), steps))
    ensures var s := After(replies, Init(replies), steps);
      && s.windexlast == 1 && |s.slots| == 4 && s.skipped == {} && s.miscounted == {0} && !Conserved(s)
      && Seen(s.wire + Cat(Rest(s))) == replies[1].0 + (replies[0].1 + replies[1].0 + replies[1].1)
      && Seen(Cat(Written(s))) == replies[0].0 + replies[0].1 + replies[1].0 + replies[1].1
      && (replies[0].0 != replies[1].0 ==> Seen(s.wire + Cat(Rest(s))) != Seen(Cat(Written(s))))
  {
    hide InOrder, After, Conserved, Do, LineSent, FirstCounted, Cat;
    steps := SendsLineFirst(replies);
    var more := CountsFirst(replies);
    RunOn(replies, Init(replies), steps, more);
    steps := steps + more;
    var total;
    more, total := ThenWritesValue(replies);
    RunOn(replies, Init(replies), steps, more);
    steps := steps + more;
    more := FirstFinishes(replies, After(replies, Init(replies), steps), total);
    RunOn(replies, Init(replies), steps, more);
    steps := steps + more;
    FinishedConservedExactly(replies, steps);
    SeesLineTwice(replies, After(replies, Init(replies), steps));
  }

  lemma SeesLineTwice(replies: Replies, s: State)
    requires |replies| == 2 && |replies[0].0| == |replies[1].0| && s.windexlast == 1
    requires s.slots == [Marked(replies[0].0, 0), Marked(replies[0].1, 1), Marked(replies[1].0, 2), Marked(replies[1].1, 3)]
    requires s.written == [Some(s.slots[0]), Some(s.slots[1]), Some(s.slots[2]), Some(s.slots[3])] && s.wire == s.slots[2]
    ensures Seen(s.wire + Cat(Rest(s))) == replies[1].0 + (replies[0].1 + replies[1].0 + replies[1].1)
    ensures Seen(Cat(Written(s))) == replies[0].0 + replies[0].1 + replies[1].0 + replies[1].1
    ensures replies[0].0 != replies[1].0 ==> Seen(s.wire + Cat(Rest(s))) != Seen(Cat(Written(s)))
  {
    var a, b, c, d := s.slots[0], s.slots[1], s.slots[2], s.slots[3];
    FourSlots(a, b, c, d);
    hide Cat;
    assert Rest(s) == [b, c, d] && Written(s) == [a, b, c, d];
    SeenOfMarked(replies[0].0, 0);
    SeenOfMarked(replies[0].1, 1);
    SeenOfMarked(replies[1].0, 2);
    SeenOfMarked(replies[1].1, 3);
    SeenOfFour(c, b, c, d);
    SeenOfFour(a, b, c, d);
    Regroup(c, b, c, d);
    hide Seen, Marked, Rest, Written;
    Regroup(replies[1].0, replies[0].1, replies[1].0, replies[1].1);
    FirstDiffers(replies[1].0, replies[0].0, replies[0].1, replies[1].0, replies[1].1);
  }

  lemma Regroup<T>(a: seq<T>, b: seq<T>, c: seq<T>, d: seq<T>)
    ensures a + (b + c + d) == a + b + c + d
  {
  }

  lemma FirstDiffers<T>(a: seq<T>, a': seq<T>, b: seq<T>, c: seq<T>, d: seq<T>)
    requires |a| == |a'|
    ensures a != a' ==> a + b + c + d != a' + b + c + d
  {
    assert (a + b + c + d)[..|a|] == a && (a' + b + c + d)[..|a|] == a';
  }

  lemma SeenOfFour(a: seq<Mark>, b: seq<Mark>, c: seq<Mark>, d: seq<Mark>)
    ensures Seen(a + b + c + d) == Seen(a) + Seen(b) + Seen(c) + Seen(d)
  {
  }

  // ---- a flush that sends from a stale start

  lemma LegalCons(replies: Replies, s: State, step: Step, rest: seq<Step>) returns (steps: seq<Step>)
    requires Enabled(replies, s, step) && Legal(replies, Do(replies, s, step), rest)
    ensures Legal(replies, s, steps) && Reached(replies, s, steps) == Reached(replies, Do(replies, s, step), rest)
  {
    steps := [step] + rest;
    assert steps[1..] == rest;
  }

  lemma {:induction false} LegalOn(replies: Replies, s: State, steps: seq<Step>, more: seq<Step>)
    requires Legal(replies, s, steps) && Legal(replies, Reached(replies, s, steps), more)
    ensures Legal(replies, s, steps + more)
    ensures Reached(replies, s, steps + more) == Reached(replies, Reached(replies, s, steps), more)
    decreases |steps|
  {
    hide Do, Enabled;
    if steps == [] {
      assert steps + more == more;
    } else {
      assert (steps + more)[1..] == steps[1..] + more;
      LegalOn(replies, Do(replies, s, steps[0]), steps[1..], more);
    }
  }

  predicate BothLarge(replies: Replies) {
    SecondIsLarge(replies) && |replies[0].1| > FLUSH_SIZE
  }

  /** Both workers have filled their slots and looked at windexlast. */
  function BothLooked(replies: Replies): State
    requires |replies| == 2
  {
    var a, b := Marked(replies[0].0, 0), Marked(replies[0].1, 1);
    var c, d := Marked(replies[1].0, 2), Marked(replies[1].1, 3);
    var first, all := |a| + |b|, |a| + |b| + |c| + |d|;
    State([a, b, c, d], 0, all, [], [Looked(0, first, 0), Looked(2, all, 0)], Free, 0, [Some(a), Some(b), Some(c), Some(d)], {}, {})
  }

  /** A worker has filled its slots and looked at windexlast. */
  function Filled(replies: Replies, s: State, w: nat): State
    requires w < |s.pcs| == |replies|
  {
    var k, (line, value) := |s.slots|, replies[w];
    var total := (s.totalsize + |line| + |value|) % UINT32_RANGE;
    s.(slots := s.slots + [Marked(line, k), Marked(value, k + 1)],
       written := s.written + [Some(Marked(line, k)), Some(Marked(value, k + 1))],
       totalsize := total, pcs := s.pcs[w := Looked(k, total, s.windexlast)])
  }

  lemma Fills(replies: Replies, s: State, w: nat) returns (steps: seq<Step>)
    requires w < |s.pcs| == |replies| && s.pcs[w].Outside? && |s.written| == |s.slots|
    ensures Legal(replies, s, steps) && Reached(replies, s, steps) == Filled(replies, s, w)
  {
    hide Legal, Reached, Cat, SendNow, ReadOne, Settle, FlushEnabled;
    var s1 := Do(replies, s, Move(w));
    var s2 := Do(replies, s1, Move(w));
    var s3 := Do(replies, s2, Move(w));
    var s4 := Do(replies, s3, Move(w));
    var s5 := Do(replies, s4, Move(w));
    assert s5 == Filled(replies, s, w);
    steps := NothingMore(replies, s5);
    steps := LegalCons(replies, s4, Move(w), steps);
    steps := LegalCons(replies, s3, Move(w), steps);
    steps := LegalCons(replies, s2, Move(w), steps);
    steps := LegalCons(replies, s1, Move(w), steps);
    steps := LegalCons(replies, s, Move(w), steps);
  }

  lemma BothLook(replies: Replies) returns (steps: seq<Step>)
    requires BothLarge(replies)
    ensures Legal(replies, Init(replies), steps) && Reached(replies, Init(replies), steps) == BothLooked(replies)
  {
    hide Legal, Reached;
    var s0 := Init(replies);
    assert s0.pcs == [Outside, Outside];
    var s1 := Filled(replies, s0, 0);
    assert Filled(replies, s1, 1) == BothLooked(replies);
    steps := Fills(replies, s0, 0);
    var more := Fills(replies, s1, 1);
    hide Filled, BothLooked, Init;
    LegalOn(replies, s0, steps, more);
    steps := steps + more;
  }

  lemma NothingMore(replies: Replies, s: State) returns (steps: seq<Step>)
    ensures steps == [] && Legal(replies, s, steps) && Reached(replies, s, steps) == s
  {
    steps := [];
  }

  /** The first worker has flushed its line. */
  function FirstFlushed(replies: Replies): State
    requires |replies| == 2
  {
    var s := BothLooked(replies);
    s.(windexlast := 1, wire := s.slots[0], pcs := [Released(|s.slots[0]|), s.pcs[1]])
  }

  /** The first worker has sent its line and found it sent. */
  function FirstFound(replies: Replies): State
    requires |replies| == 2
  {
    var s := BothLooked(replies);
    var line := s.slots[0];
    s.(wire := line, pcs := [Flushing, s.pcs[1]], flush := Found(0, 0, |line|, [line], [line], |line|))
  }

  lemma FirstSends(replies: Replies) returns (steps: seq<Step>)
    requires BothLarge(replies)
    ensures Legal(replies, BothLooked(replies), steps)
    ensures Reached(replies, BothLooked(replies), steps) == FirstFound(replies)
  {
    var line := Marked(replies[0].0, 0);
    CatOne(line);
    assert Cat<Mark>([]) == [];
    hide Legal, Reached, Cat, Settle;
    var s0 := BothLooked(replies);
    var s1 := Do(replies, s0, Move(0));
    assert s1.flush == Held(0, 0, 1) && s1.slots[0..1] == [line];
    var s2 := Do(replies, s1, Send(0, |line|));
    assert s2.wire == line && s2.flush == Reading(0, 0, |line|, [line], []);
    var s3 := Do(replies, s2, Move(0));
    assert s3.flush == Found(0, 0, |line|, [line], [line], |line|);
    assert s3 == FirstFound(replies);
    steps := NothingMore(replies, s3);
    steps := LegalCons(replies, s2, Move(0), steps);
    steps := LegalCons(replies, s1, Send(0, |line|), steps);
    steps := LegalCons(replies, s0, Move(0), steps);
  }

  lemma FirstFlushes(replies: Replies) returns (steps: seq<Step>)
    requires BothLarge(replies)
    ensures Legal(replies, BothLooked(replies), steps)
    ensures Reached(replies, BothLooked(replies), steps) == FirstFlushed(replies)
  {
    hide Legal, Reached, Cat;
    var s0, line := FirstFound(replies), Marked(replies[0].0, 0);
    assert Blank(0, [line]) == {};
    var s1 := Do(replies, s0, Move(0));
    var s2 := Do(replies, s1, Move(0));
    assert s2 == FirstFlushed(replies);
    var more := NothingMore(replies, s2);
    more := LegalCons(replies, s1, Move(0), more);
    more := LegalCons(replies, s0, Move(0), more);
    steps := FirstSends(replies);
    LegalOn(replies, BothLooked(replies), steps, more);
    steps := steps + more;
  }

  /** The second worker starts from the windexlast that it saw, and sends the same line again. */
  lemma SecondRepeats(replies: Replies) returns (steps: seq<Step>)
    requires BothLarge(replies)
    ensures Legal(replies, FirstFlushed(replies), steps)
    ensures var s, line := Reached(replies, FirstFlushed(replies), steps), Marked(replies[0].0, 0);
      s.flush.Free? && s.windexlast == 1 && s.slots == FirstFlushed(replies).slots && s.wire == line + line
      && s.written == FirstFlushed(replies).written
  {
    var s0 := FirstFlushed(replies);
    var line := Marked(replies[0].0, 0);
    var offered := s0.slots[0..3];
    assert offered == [line] + s0.slots[1..3];
    CatOne(line);
    CatOfPrefix([line], offered, |line|);
    assert Cat<Mark>([]) == [];
    hide Legal, Reached, Cat, Blank;
    var s1 := Do(replies, s0, Move(1));
    assert s1.flush == Held(1, 0, 3) && s1.slots[0..3] == offered;
    var s2 := Do(replies, s1, Send(1, |line|));
    assert s2.wire == line + line && s2.flush == Reading(1, 0, |line|, offered, []);
    var s3 := Do(replies, s2, Move(1));
    assert s3.flush == Found(1, 0, |line|, offered, [line], |line|);
    var s4 := Do(replies, s3, Move(1));
    var s5 := Do(replies, s4, Move(1));
    steps := NothingMore(replies, s5);
    steps := LegalCons(replies, s4, Move(1), steps);
    steps := LegalCons(replies, s3, Move(1), steps);
    steps := LegalCons(replies, s2, Move(1), steps);
    steps := LegalCons(replies, s1, Send(1, |line|), steps);
    steps := LegalCons(replies, s0, Move(1), steps);
  }

  /** A flush that sends from a stale start repeats bytes, even of slots that were all written before. */
  lemma StaleStartRepeats(replies: Replies) returns (steps: seq<Step>)
    requires BothLarge(replies)
    ensures Legal(replies, Init(replies), steps)
    ensures var s, line := Reached(replies, Init(replies), steps), Marked(replies[0].0, 0);
      s.flush.Free? && s.windexlast <= |s.slots| && s.wire == line + line && !Conserved(s)
  {
    hide Legal, Reached, Do, Cat;
    steps := BothLook(replies);
    var more := FirstFlushes(replies);
    LegalOn(replies, Init(replies), steps, more);
    steps := steps + more;
    more := SecondRepeats(replies);
    LegalOn(replies, Init(replies), steps, more);
    steps := steps + more;
    var s := Reached(replies, Init(replies), steps);
    FourSlots(s.slots[0], s.slots[1], s.slots[2], s.slots[3]);
    assert Rest(s) == [s.slots[1], s.slots[2], s.slots[3]];
    assert Written(s) == [s.slots[0], s.slots[1], s.slots[2], s.slots[3]];
    assert |s.wire + Cat(Rest(s))| > |Cat(Written(s))|;
  }
}
