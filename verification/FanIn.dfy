/**
 One multi-key get, split by the comm thread into a message per key and joined again by the
 workers through the counters reqCount and replyCount, as a machine of single instructions.
 Each message is a thread of its own, so every interleaving of any number of workers is a run.
 */
module FanIn {
  import opened Bytes

  /** What a slot of the reply buffer was given. */
  datatype Item = Header(key: nat) | Data(key: nat) | End

  /** The comm thread's loop over the keys; reqCount++ is a read and a write. */
  datatype CommPc =
    | Reading(i: nat)
    | Writing(i: nat, read: nat)
    | Closing(i: nat)
    | Posting(i: nat)
    | CommDone

  /** A worker's way through one message. rank is the value its increment of replyCount gave. */
  datatype Pc =
    | Unposted
    | Queued
    | Reserved(index: nat)           // two slots reserved, nothing written
    | HeaderIn(index: nat)           // the VALUE line written
    | Served                         // replied or not found, not yet counted
    | Counted(rank: nat)
    | Testing(rank: nat)             // concPending was seen clear
    | ReadOnce(rank: nat, want: nat) // reqCount read for the swap
    | Swapped(rank: nat, was: nat)   // what the compare-and-swap returned
    | Passed
    | Cleared                        // reqCount written to 0
    | EndReserved(index: nat)
    | EndWritten(index: nat)
    | Done

  /** The last six fields record the past of the run; the code does not have them. */
  datatype State = State(
    comm: CommPc,
    concPending: bool,
    reqCount: nat,
    replyCount: nat,
    iovIndex: nat,
    pcs: seq<Pc>,
    slots: map<nat, seq<Item>>,
    order: seq<nat>,            // messages in the order of their reservations
    enders: seq<nat>,           // messages in the order of their reservations for END
    captured: Option<nat>,      // the message whose swap took replyCount from n to 0
    cleared: bool,              // some message has written reqCount to 0
    indexReset: bool,           // some message has reset iovIndex
    trace: Trace)

  datatype Trace = Trace(last: nat, lateSwap: set<nat>, lateRead: set<nat>, winners: set<nat>)

  datatype Step = Comm | Move(m: nat)

  /** found: for each key, whether the store has it when the worker looks. */
  function Init(found: seq<bool>): State {
    State(Reading(0), true, 0, 0, 0, seq(|found|, _ => Unposted), map[], [], [], None, false, false, Trace(0, {}, {}, {}))
  }

  function Slot(s: State, k: nat): seq<Item> {
    if k in s.slots then s.slots[k] else []
  }

  function Write(s: State, k: nat, item: Item): State {
    s.(slots := s.slots[k := Slot(s, k) + [item]])
  }

  predicate Enabled(found: seq<bool>, s: State, step: Step) {
    && |s.pcs| == |found|
    && match step
       case Comm => s.comm != CommDone
       case Move(m) => m < |found| && s.pcs[m] != Unposted && s.pcs[m] != Done
  }

  function DoComm(found: seq<bool>, s: State): State
    requires Enabled(found, s, Comm)
  {
    match s.comm
    case Reading(i) => s.(comm := Writing(i, s.reqCount))
    case Writing(i, read) => s.(reqCount := read + 1, comm := Closing(i))
    case Closing(i) => s.(concPending := s.concPending && i + 1 < |found|, comm := Posting(i))
    case Posting(i) =>
      s.(pcs := if i < |s.pcs| then s.pcs[i := Queued] else s.pcs,
         comm := if i + 1 < |found| then Reading(i + 1) else CommDone)
  }

  function DoMove(found: seq<bool>, s: State, m: nat): State
    requires Enabled(found, s, Move(m))
  {
    match s.pcs[m]
    case Queued =>
      if found[m] then
        s.(iovIndex := s.iovIndex + 2, order := s.order + [m], pcs := s.pcs[m := Reserved(s.iovIndex)])
      else
        s.(pcs := s.pcs[m := Served])
    case Reserved(index) => Write(s, index, Header(m)).(pcs := s.pcs[m := HeaderIn(index)])
    case HeaderIn(index) => Write(s, index + 1, Data(m)).(pcs := s.pcs[m := Served])
    case Served =>
      s.(replyCount := s.replyCount + 1, pcs := s.pcs[m := Counted(s.replyCount + 1)], trace := s.trace.(last := m))
    case Counted(rank) => s.(pcs := s.pcs[m := if s.concPending then Done else Testing(rank)])
    case Testing(rank) => s.(pcs := s.pcs[m := ReadOnce(rank, s.reqCount)])
    case ReadOnce(rank, want) =>
      s.(replyCount := if s.replyCount == want then 0 else s.replyCount,
         pcs := s.pcs[m := Swapped(rank, s.replyCount)],
         captured := if s.captured == None && s.replyCount == want then Some(m) else s.captured,
         trace := s.trace.(lateSwap := if s.captured == None then s.trace.lateSwap else s.trace.lateSwap + {m}))
    case Swapped(rank, was) =>
      s.(pcs := s.pcs[m := if was == s.reqCount then Passed else Done],
         trace := s.trace.(lateRead := if s.cleared then s.trace.lateRead + {m} else s.trace.lateRead,
                           winners := if was == s.reqCount then s.trace.winners + {m} else s.trace.winners))
    case Passed => s.(reqCount := 0, cleared := true, pcs := s.pcs[m := Cleared])
    case Cleared => s.(iovIndex := s.iovIndex + 1, enders := s.enders + [m], pcs := s.pcs[m := EndReserved(s.iovIndex)])
    case EndReserved(index) => Write(s, index, End).(pcs := s.pcs[m := EndWritten(index)])
    case EndWritten(index) => s.(iovIndex := 0, indexReset := true, pcs := s.pcs[m := Done])
  }

  function Do(found: seq<bool>, s: State, step: Step): State
    requires Enabled(found, s, step)
  {
    match step
    case Comm => DoComm(found, s)
    case Move(m) => DoMove(found, s, m)
  }

  predicate Legal(found: seq<bool>, s: State, steps: seq<Step>)
    decreases |steps|
  {
    steps == [] || (Enabled(found, s, steps[0]) && Legal(found, Do(found, s, steps[0]), steps[1..]))
  }

  function After(found: seq<bool>, s: State, steps: seq<Step>): State
    requires Legal(found, s, steps)
    decreases |steps|
  {
    if steps == [] then s else After(found, Do(found, s, steps[0]), steps[1..])
  }

  // ---------------------------------------------------------------- counting replies

  /** The message has added itself to replyCount. */
  predicate HasCounted(pc: Pc) {
    !(pc.Unposted? || pc.Queued? || pc.Reserved? || pc.HeaderIn? || pc.Served?)
  }

  function Replies(pcs: seq<Pc>): (r: nat)
    ensures r <= |pcs|
  {
    if pcs == [] then 0 else (if HasCounted(pcs[0]) then 1 else 0) + Replies(pcs[1..])
  }

  lemma {:induction false} RepliesUpdate(pcs: seq<Pc>, i: nat, pc: Pc)
    requires i < |pcs|
    ensures Replies(pcs[i := pc]) ==
      Replies(pcs) - (if HasCounted(pcs[i]) then 1 else 0) + (if HasCounted(pc) then 1 else 0)
  {
    if i == 0 {
      assert pcs[i := pc][1..] == pcs[1..];
    } else {
      assert pcs[i := pc][1..] == pcs[1..][i - 1 := pc];
      RepliesUpdate(pcs[1..], i - 1, pc);
    }
  }

  lemma {:induction false} AllReplied(pcs: seq<Pc>)
    ensures Replies(pcs) == |pcs| <==> forall i :: 0 <= i < |pcs| ==> HasCounted(pcs[i])
  {
    if pcs != [] {
      AllReplied(pcs[1..]);
      if Replies(pcs) == |pcs| {
        forall i | 0 <= i < |pcs| ensures HasCounted(pcs[i]) {
          if i > 0 { assert HasCounted(pcs[1..][i - 1]); }
        }
      }
    }
  }

  // ---------------------------------------------------------------- the counters' invariant

  /** How many keys the comm thread has added to reqCount, and how many it has posted. */
  function Requested(n: nat, comm: CommPc): nat {
    match comm
    case Reading(i) => i
    case Writing(i, _) => i
    case Closing(i) => i + 1
    case Posting(i) => i + 1
    case CommDone => n
  }

  function Posted(n: nat, comm: CommPc): nat {
    if comm.CommDone? then n else comm.i
  }

  ghost predicate CommInv(n: nat, s: State)
    requires |s.pcs| == n
  {
    && (s.comm.CommDone? || s.comm.i < n)
    && (s.comm.Writing? ==> s.comm.read == s.comm.i)
    && (s.concPending <==> !(s.comm.CommDone? || (s.comm.Posting? && s.comm.i + 1 == n)))
    && s.reqCount == (if s.cleared then 0 else Requested(n, s.comm))
    && (forall m :: 0 <= m < n ==> (s.pcs[m].Unposted? <==> m >= Posted(n, s.comm)))
  }

  /** The message that brought replyCount to n is still on its way to its swap. */
  predicate WillCapture(pc: Pc, n: nat) {
    (pc.Counted? || pc.Testing? || pc.ReadOnce?) && pc.rank == n
  }

  predicate HasPassed(pc: Pc) {
    pc.Passed? || pc.Cleared? || pc.EndReserved? || pc.EndWritten?
  }

  ghost predicate MessageInv(n: nat, s: State, m: nat)
    requires m < |s.pcs|
  {
    var pc := s.pcs[m];
    && (pc.Testing? || pc.ReadOnce? || pc.Swapped? || HasPassed(pc) ==> !s.concPending)
    && (HasPassed(pc) ==> m in s.trace.winners)
    && (m in s.trace.winners ==> HasPassed(pc) || pc.Done?)
    && (m in s.trace.lateSwap ==> pc.Swapped? || HasPassed(pc) || pc.Done?)
    && (m in s.trace.lateRead ==> HasPassed(pc) || pc.Done?)
    && (s.captured == None ==>
          && (pc.Counted? || pc.Testing? || pc.ReadOnce? || pc.Swapped? ==> 1 <= pc.rank <= s.replyCount)
          && (pc.ReadOnce? ==> pc.want == n)
          && (pc.Swapped? ==> 1 <= pc.was < n))
    && (s.captured != None ==>
          && HasCounted(pc)
          && (pc.Swapped? && s.captured != Some(m) ==> pc.was < n && (m in s.trace.lateSwap <==> pc.was == 0)))
  }

  ghost predicate CaptureInv(n: nat, s: State)
    requires |s.pcs| == n
  {
    match s.captured
    case None =>
      && !s.cleared && s.trace == Trace(s.trace.last, {}, {}, {})
      && s.replyCount == Replies(s.pcs)
      && (s.replyCount == n ==> s.trace.last < n && WillCapture(s.pcs[s.trace.last], n))
    case Some(c) =>
      && c < n && s.replyCount == 0 && s.comm.CommDone?
      && c !in s.trace.lateSwap && (!s.cleared ==> s.trace.lateRead == {})
      && (s.pcs[c].Swapped? || c in s.trace.winners)
      && (s.pcs[c].Swapped? ==> s.pcs[c].was == n && !s.cleared)
      && s.trace.winners == (if s.pcs[c].Swapped? then {} else {c}) + s.trace.lateSwap * s.trace.lateRead
  }

  ghost predicate CountInv(n: nat, s: State) {
    && |s.pcs| == n >= 1
    && CommInv(n, s)
    && CaptureInv(n, s)
    && forall m :: 0 <= m < n ==> MessageInv(n, s, m)
  }

  /** Counting a key and closing the list touch no message. */
  lemma CountingKeeps(found: seq<bool>, s: State)
    requires CountInv(|found|, s) && Enabled(found, s, Comm) && !s.comm.Posting?
    ensures CountInv(|found|, DoComm(found, s))
  {
    hide Replies;
    var n, t := |found|, DoComm(found, s);
    assert CommInv(n, t);
    assert CaptureInv(n, t);
    forall m | 0 <= m < n ensures MessageInv(n, t, m) {
      assert MessageInv(n, s, m);
    }
  }

  lemma PostingKeeps(found: seq<bool>, s: State)
    requires CountInv(|found|, s) && Enabled(found, s, Comm) && s.comm.Posting?
    ensures CountInv(|found|, DoComm(found, s))
  {
    hide Replies;
    var n, t := |found|, DoComm(found, s);
    RepliesUpdate(s.pcs, s.comm.i, Queued);
    assert s.pcs[s.comm.i].Unposted?;
    assert CommInv(n, t);
    assert CaptureInv(n, t);
    forall m | 0 <= m < n ensures MessageInv(n, t, m) {
      assert MessageInv(n, s, m);
    }
  }

  lemma CommKeeps(found: seq<bool>, s: State)
    requires CountInv(|found|, s) && Enabled(found, s, Comm)
    ensures CountInv(|found|, DoComm(found, s))
  {
    hide CountInv, DoComm;
    if s.comm.Posting? {
      PostingKeeps(found, s);
    } else {
      CountingKeeps(found, s);
    }
  }

  /** Once every reply is counted the comm thread is done. */
  lemma AllCounted(n: nat, s: State)
    requires CountInv(n, s) && (s.captured != None || s.replyCount == n)
    ensures s.comm.CommDone? && forall m :: 0 <= m < n ==> HasCounted(s.pcs[m])
  {
    AllReplied(s.pcs);
    assert forall m :: 0 <= m < n ==> MessageInv(n, s, m) ==> s.captured != None ==> HasCounted(s.pcs[m]);
    assert !s.pcs[n - 1].Unposted?;
  }

  predicate BeforeCount(pc: Pc) {
    pc.Queued? || pc.Reserved? || pc.HeaderIn?
  }

  /** Looking up and writing a reply touches neither counter. */
  lemma ReplyMoveIs(found: seq<bool>, s: State, m: nat)
    requires Enabled(found, s, Move(m)) && BeforeCount(s.pcs[m])
    ensures var t := DoMove(found, s, m);
      && t == s.(iovIndex := t.iovIndex, order := t.order, slots := t.slots, pcs := s.pcs[m := t.pcs[m]])
      && (t.pcs[m].Served? || t.pcs[m].Reserved? || t.pcs[m].HeaderIn?) && |t.pcs| == |s.pcs|
  {
  }

  lemma ReplyMoveKeeps(found: seq<bool>, s: State, m: nat)
    requires CountInv(|found|, s) && Enabled(found, s, Move(m)) && BeforeCount(s.pcs[m])
    ensures CountInv(|found|, DoMove(found, s, m))
  {
    ReplyMoveIs(found, s, m);
    hide Replies, DoMove;
    var n, t := |found|, DoMove(found, s, m);
    assert MessageInv(n, s, m);
    RepliesUpdate(s.pcs, m, t.pcs[m]);
    assert CommInv(n, t);
    assert CaptureInv(n, t);
    forall i | 0 <= i < n ensures MessageInv(n, t, i) {
      assert MessageInv(n, s, i);
    }
  }

  lemma WinnerMoveKeeps(found: seq<bool>, s: State, m: nat)
    requires CountInv(|found|, s) && Enabled(found, s, Move(m)) && HasPassed(s.pcs[m])
    ensures CountInv(|found|, DoMove(found, s, m))
  {
    hide Replies;
    var n, t := |found|, DoMove(found, s, m);
    assert MessageInv(n, s, m);
    RepliesUpdate(s.pcs, m, t.pcs[m]);
    assert CommInv(n, t);
    assert CaptureInv(n, t);
    forall i | 0 <= i < n ensures MessageInv(n, t, i) {
      assert MessageInv(n, s, i);
    }
  }

  lemma CountKeeps(found: seq<bool>, s: State, m: nat)
    requires CountInv(|found|, s) && Enabled(found, s, Move(m))
    requires s.pcs[m].Served? || s.pcs[m].Counted? || s.pcs[m].Testing?
    ensures CountInv(|found|, DoMove(found, s, m))
  {
    hide Replies;
    var n, t := |found|, DoMove(found, s, m);
    assert MessageInv(n, s, m);
    RepliesUpdate(s.pcs, m, t.pcs[m]);
    if s.captured != None || s.replyCount == n {
      AllCounted(n, s);
    }
    assert CommInv(n, t);
    assert CaptureInv(n, t);
    forall i | 0 <= i < n ensures MessageInv(n, t, i) {
      assert MessageInv(n, s, i);
    }
  }

  lemma SwapKeeps(found: seq<bool>, s: State, m: nat)
    requires CountInv(|found|, s) && Enabled(found, s, Move(m)) && s.pcs[m].ReadOnce?
    ensures CountInv(|found|, DoMove(found, s, m))
  {
    hide Replies;
    var n, t := |found|, DoMove(found, s, m);
    assert MessageInv(n, s, m);
    RepliesUpdate(s.pcs, m, t.pcs[m]);
    if s.captured != None || s.replyCount == n {
      AllCounted(n, s);
    }
    assert CommInv(n, t);
    assert CaptureInv(n, t);
    forall i | 0 <= i < n ensures MessageInv(n, t, i) {
      assert MessageInv(n, s, i);
    }
  }

  lemma SecondReadKeeps(found: seq<bool>, s: State, m: nat)
    requires CountInv(|found|, s) && Enabled(found, s, Move(m)) && s.pcs[m].Swapped?
    ensures CountInv(|found|, DoMove(found, s, m))
  {
    var n, t := |found|, DoMove(found, s, m);
    assert MessageInv(n, s, m);
    RepliesUpdate(s.pcs, m, t.pcs[m]);
    assert CommInv(n, t);
    assert CaptureInv(n, t);
    forall i | 0 <= i < n ensures MessageInv(n, t, i) {
      assert MessageInv(n, s, i);
    }
  }

  // ---------------------------------------------------------------- the reply buffer

  predicate Looked(pc: Pc) {
    !pc.Unposted? && !pc.Queued?
  }

  /** The j-th reservation owns slots 2j and 2j+1, and each slot is written once. */
  ghost predicate PairInv(found: seq<bool>, s: State, j: nat)
    requires |s.pcs| == |found| && j < |s.order|
  {
    var m := s.order[j];
    && m < |found| && found[m] && Looked(s.pcs[m])
    && (s.pcs[m].Reserved? || s.pcs[m].HeaderIn? ==> s.pcs[m].index == 2 * j)
    && Slot(s, 2 * j) == (if s.pcs[m].Reserved? then [] else [Header(m)])
    && Slot(s, 2 * j + 1) == (if s.pcs[m].Reserved? || s.pcs[m].HeaderIn? then [] else [Data(m)])
  }

  /** The i-th reservation for END owns the i-th slot past the pairs. */
  ghost predicate EndInv(s: State, i: nat)
    requires i < |s.enders|
  {
    var m := s.enders[i];
    && m < |s.pcs| && (s.pcs[m].EndReserved? || s.pcs[m].EndWritten?) && s.pcs[m].index == 2 * |s.order| + i
    && Slot(s, 2 * |s.order| + i) == (if s.pcs[m].EndWritten? then [End] else [])
  }

  /** A slot that nobody has reserved is free. */
  ghost predicate TailInv(s: State, k: nat) {
    k >= s.iovIndex ==> Slot(s, k) == []
  }

  ghost predicate OwnerInv(found: seq<bool>, s: State, m: nat)
    requires |s.pcs| == |found| && m < |found|
  {
    var pc := s.pcs[m];
    && (Looked(pc) && found[m] ==> m in s.order)
    && (pc.Reserved? || pc.HeaderIn? ==> found[m])
    && (pc.EndReserved? || pc.EndWritten? ==> m in s.enders)
  }

  ghost predicate LayoutInv(found: seq<bool>, s: State) {
    && |s.pcs| == |found|
    && (!s.indexReset ==>
          && s.iovIndex == 2 * |s.order| + |s.enders|
          && (s.enders != [] ==> s.captured != None)
          && (forall i, j :: 0 <= i < j < |s.order| ==> s.order[i] != s.order[j])
          && (forall j :: 0 <= j < |s.order| ==> PairInv(found, s, j))
          && (forall k :: k >= 0 ==> TailInv(s, k))
          && (forall i :: 0 <= i < |s.enders| ==> EndInv(s, i))
          && (forall m :: 0 <= m < |found| ==> OwnerInv(found, s, m)))
  }

  lemma LookupKeepsLayout(found: seq<bool>, s: State, m: nat)
    requires CountInv(|found|, s) && LayoutInv(found, s) && Enabled(found, s, Move(m)) && s.pcs[m].Queued?
    ensures LayoutInv(found, DoMove(found, s, m))
  {
    var t := DoMove(found, s, m);
    if !s.indexReset {
      assert MessageInv(|found|, s, m) && OwnerInv(found, s, m);
      assert s.captured == None;
      forall j | 0 <= j < |t.order| ensures PairInv(found, t, j) {
        if j < |s.order| {
          assert PairInv(found, s, j);
        } else {
          assert TailInv(s, 2 * j) && TailInv(s, 2 * j + 1);
        }
      }
      forall k | k >= 0 ensures TailInv(t, k) {
        assert TailInv(s, k);
      }
      forall i | 0 <= i < |found| ensures OwnerInv(found, t, i) {
        assert OwnerInv(found, s, i) && MessageInv(|found|, s, i);
        assert found[m] ==> t.order[|s.order|] == m;
        if i in s.order {
          var j :| 0 <= j < |s.order| && s.order[j] == i;
          assert found[m] ==> t.order[j] == i;
        }
      }
      forall i, j | 0 <= i < j < |t.order| ensures t.order[i] != t.order[j] {
        assert PairInv(found, s, i);
      }
    }
  }

  lemma SlotsAfterWrite(s: State, t: State, at: nat, item: Item)
    requires t.slots == Write(s, at, item).slots
    ensures forall k :: k >= 0 ==> Slot(t, k) == if k == at then Slot(s, k) + [item] else Slot(s, k)
  {
  }

  /** The owner of a pair writes one of its slots. */
  ghost predicate WritesPair(s: State, t: State, m: nat) {
    && m < |s.pcs| && |t.pcs| == |s.pcs| && t.pcs == s.pcs[m := t.pcs[m]]
    && t == s.(pcs := t.pcs, slots := t.slots)
    && (if s.pcs[m].Reserved? then t.pcs[m] == HeaderIn(s.pcs[m].index) else s.pcs[m].HeaderIn? && t.pcs[m] == Served)
    && var at := if s.pcs[m].Reserved? then s.pcs[m].index else s.pcs[m].index + 1;
       var item := if s.pcs[m].Reserved? then Header(m) else Data(m);
       forall k :: k >= 0 ==> Slot(t, k) == if k == at then Slot(s, k) + [item] else Slot(s, k)
  }

  lemma PairsAfterWrite(found: seq<bool>, s: State, t: State, m: nat, p: nat)
    requires LayoutInv(found, s) && !s.indexReset && WritesPair(s, t, m)
    requires p < |s.order| && s.order[p] == m
    ensures forall j :: 0 <= j < |t.order| ==> PairInv(found, t, j)
  {
    hide Slot;
    assert PairInv(found, s, p);
    forall j | 0 <= j < |t.order| ensures PairInv(found, t, j) {
      assert PairInv(found, s, j);
    }
  }

  lemma RestAfterWrite(found: seq<bool>, s: State, t: State, m: nat, p: nat)
    requires LayoutInv(found, s) && !s.indexReset && WritesPair(s, t, m)
    requires p < |s.order| && s.order[p] == m
    ensures forall i :: 0 <= i < |t.enders| ==> EndInv(t, i)
    ensures forall k :: k >= 0 ==> TailInv(t, k)
    ensures forall i :: 0 <= i < |found| ==> OwnerInv(found, t, i)
  {
    hide Slot;
    assert PairInv(found, s, p);
    forall i | 0 <= i < |t.enders| ensures EndInv(t, i) {
      assert EndInv(s, i);
    }
    forall k | k >= 0 ensures TailInv(t, k) {
      assert TailInv(s, k);
    }
    forall i | 0 <= i < |found| ensures OwnerInv(found, t, i) {
      assert OwnerInv(found, s, i);
    }
  }

  lemma WriteKeepsLayout(found: seq<bool>, s: State, m: nat)
    requires LayoutInv(found, s) && Enabled(found, s, Move(m)) && (s.pcs[m].Reserved? || s.pcs[m].HeaderIn?)
    ensures LayoutInv(found, DoMove(found, s, m))
  {
    var t := DoMove(found, s, m);
    if s.pcs[m].Reserved? {
      SlotsAfterWrite(s, t, s.pcs[m].index, Header(m));
    } else {
      SlotsAfterWrite(s, t, s.pcs[m].index + 1, Data(m));
    }
    assert WritesPair(s, t, m);
    hide DoMove, WritesPair, Slot, PairInv, EndInv, TailInv;
    if !s.indexReset {
      assert OwnerInv(found, s, m);
      var p :| 0 <= p < |s.order| && s.order[p] == m;
      PairsAfterWrite(found, s, t, m, p);
      RestAfterWrite(found, s, t, m, p);
      assert t.order == s.order && t.enders == s.enders && t.iovIndex == s.iovIndex && t.captured == s.captured by {
        WriteFrame(s, t, m);
      }
    }
    assert |t.pcs| == |found| && t.indexReset == s.indexReset by {
      WriteFrame(s, t, m);
    }
  }

  lemma WriteFrame(s: State, t: State, m: nat)
    requires WritesPair(s, t, m)
    ensures t.order == s.order && t.enders == s.enders && t.iovIndex == s.iovIndex && t.captured == s.captured
    ensures |t.pcs| == |s.pcs| && t.indexReset == s.indexReset
  {
  }

  lemma ReserveEndKeepsLayout(found: seq<bool>, s: State, m: nat)
    requires CountInv(|found|, s) && LayoutInv(found, s) && Enabled(found, s, Move(m)) && s.pcs[m].Cleared?
    ensures LayoutInv(found, DoMove(found, s, m))
  {
    var t := DoMove(found, s, m);
    if !s.indexReset {
      assert MessageInv(|found|, s, m) && TailInv(s, s.iovIndex);
      forall i | 0 <= i < |t.enders| ensures EndInv(t, i) {
        assert i < |s.enders| ==> EndInv(s, i);
      }
      forall j | 0 <= j < |t.order| ensures PairInv(found, t, j) {
        assert PairInv(found, s, j);
      }
      forall k | k >= 0 ensures TailInv(t, k) {
        assert TailInv(s, k);
      }
      forall i | 0 <= i < |found| ensures OwnerInv(found, t, i) {
        assert OwnerInv(found, s, i);
        assert t.enders[|s.enders|] == m;
        if i in s.enders {
          var e :| 0 <= e < |s.enders| && s.enders[e] == i;
          assert t.enders[e] == i;
        }
      }
    }
  }

  /** A winner writes END into the slot that it has reserved. */
  ghost predicate WritesEnd(s: State, t: State, m: nat) {
    && m < |s.pcs| && s.pcs[m].EndReserved? && t.pcs == s.pcs[m := EndWritten(s.pcs[m].index)]
    && t == s.(pcs := t.pcs, slots := t.slots)
    && forall k :: k >= 0 ==> Slot(t, k) == if k == s.pcs[m].index then Slot(s, k) + [End] else Slot(s, k)
  }

  lemma EndsAfterWrite(found: seq<bool>, s: State, t: State, m: nat)
    requires LayoutInv(found, s) && !s.indexReset && WritesEnd(s, t, m)
    ensures forall i :: 0 <= i < |t.enders| ==> EndInv(t, i)
    ensures forall k :: k >= 0 ==> TailInv(t, k)
    ensures s.pcs[m].index >= 2 * |s.order|
  {
    hide Slot;
    assert OwnerInv(found, s, m);
    var own :| 0 <= own < |s.enders| && s.enders[own] == m;
    assert EndInv(s, own);
    forall i | 0 <= i < |t.enders| ensures EndInv(t, i) {
      assert EndInv(s, i);
    }
    forall k | k >= 0 ensures TailInv(t, k) {
      assert TailInv(s, k);
    }
  }

  lemma WriteEndKeepsLayout(found: seq<bool>, s: State, m: nat)
    requires LayoutInv(found, s) && Enabled(found, s, Move(m)) && s.pcs[m].EndReserved?
    ensures LayoutInv(found, DoMove(found, s, m))
  {
    var t := DoMove(found, s, m);
    SlotsAfterWrite(s, t, s.pcs[m].index, End);
    assert WritesEnd(s, t, m);
    hide DoMove, Slot, EndInv, TailInv;
    if !s.indexReset {
      EndsAfterWrite(found, s, t, m);
      forall j | 0 <= j < |t.order| ensures PairInv(found, t, j) {
        assert PairInv(found, s, j);
      }
      forall i | 0 <= i < |found| ensures OwnerInv(found, t, i) {
        assert OwnerInv(found, s, i);
      }
    }
  }

  lemma CommKeepsLayout(found: seq<bool>, s: State)
    requires CountInv(|found|, s) && LayoutInv(found, s) && Enabled(found, s, Comm)
    ensures LayoutInv(found, DoComm(found, s))
  {
    var t := DoComm(found, s);
    if !t.indexReset {
      forall j | 0 <= j < |t.order| ensures PairInv(found, t, j) {
        assert PairInv(found, s, j);
      }
      assert t.enders == [];
      forall k | k >= 0 ensures TailInv(t, k) {
        assert TailInv(s, k);
      }
      forall i | 0 <= i < |found| ensures OwnerInv(found, t, i) {
        assert OwnerInv(found, s, i);
      }
    }
  }

  /** A move that leaves slots, reservations and the index alone. */
  lemma SameLayout(found: seq<bool>, s: State, t: State, m: nat)
    requires LayoutInv(found, s) && !s.indexReset && m < |found| && Looked(s.pcs[m]) && |t.pcs| == |found|
    requires t.slots == s.slots && t.order == s.order && t.iovIndex == s.iovIndex && t.enders == s.enders
    requires !s.pcs[m].EndReserved? && !s.pcs[m].EndWritten?
    requires !s.pcs[m].Reserved? && !s.pcs[m].HeaderIn? && (s.captured != None ==> t.captured != None)
    requires t.pcs == s.pcs[m := t.pcs[m]] && Looked(t.pcs[m]) && !t.pcs[m].Reserved? && !t.pcs[m].HeaderIn?
    requires !t.pcs[m].EndReserved? && !t.pcs[m].EndWritten?
    ensures LayoutInv(found, t)
  {
    forall j | 0 <= j < |t.order| ensures PairInv(found, t, j) {
      assert PairInv(found, s, j);
    }
    forall i | 0 <= i < |t.enders| ensures EndInv(t, i) {
      assert EndInv(s, i);
    }
    forall k | k >= 0 ensures TailInv(t, k) {
      assert TailInv(s, k);
    }
    forall i | 0 <= i < |found| ensures OwnerInv(found, t, i) {
      assert OwnerInv(found, s, i);
    }
  }

  predicate LeavesLayout(pc: Pc) {
    (HasCounted(pc) || pc.Served?) && !pc.Cleared? && !pc.EndReserved?
  }

  /** Nothing of the reply buffer changes but the message's own place in the code. */
  ghost predicate SameBuffer(s: State, t: State, m: nat)
    requires m < |s.pcs|
  {
    && t.slots == s.slots && t.order == s.order && t.iovIndex == s.iovIndex && t.enders == s.enders
    && (s.captured != None ==> t.captured != None) && t.indexReset == s.indexReset
    && |t.pcs| == |s.pcs| && t.pcs == s.pcs[m := t.pcs[m]]
    && (t.pcs[m].Cleared? || LeavesLayout(t.pcs[m])) && !t.pcs[m].EndWritten?
  }

  /** Every other move is such a move, or resets the index. */
  lemma CountIsSame(found: seq<bool>, s: State, m: nat)
    requires Enabled(found, s, Move(m)) && (s.pcs[m].Served? || s.pcs[m].Counted? || s.pcs[m].Testing? || s.pcs[m].Passed?)
    ensures SameBuffer(s, DoMove(found, s, m), m)
  {
  }

  lemma TestIsSame(found: seq<bool>, s: State, m: nat)
    requires Enabled(found, s, Move(m)) && (s.pcs[m].ReadOnce? || s.pcs[m].Swapped?)
    ensures SameBuffer(s, DoMove(found, s, m), m)
  {
  }

  lemma RestKeepsLayout(found: seq<bool>, s: State, m: nat)
    requires LayoutInv(found, s) && Enabled(found, s, Move(m)) && LeavesLayout(s.pcs[m])
    ensures LayoutInv(found, DoMove(found, s, m))
  {
    var t := DoMove(found, s, m);
    if s.pcs[m].EndWritten? {
      assert |t.pcs| == |found| && t.indexReset;
      ResetLayout(found, t);
    } else {
      if s.pcs[m].ReadOnce? || s.pcs[m].Swapped? { TestIsSame(found, s, m); } else { CountIsSame(found, s, m); }
      hide LayoutInv, DoMove;
      if s.indexReset { ResetLayout(found, t); } else { SameLayout(found, s, t, m); }
    }
  }

  lemma ResetLayout(found: seq<bool>, t: State)
    requires |t.pcs| == |found| && t.indexReset
    ensures LayoutInv(found, t)
  {
  }

  // ---------------------------------------------------------------- results over all runs

  lemma StepKeeps(found: seq<bool>, s: State, step: Step)
    requires CountInv(|found|, s) && LayoutInv(found, s) && Enabled(found, s, step)
    ensures CountInv(|found|, Do(found, s, step)) && LayoutInv(found, Do(found, s, step))
  {
    hide CountInv, LayoutInv, DoMove, DoComm;
    match step
    case Comm =>
      CommKeeps(found, s);
      CommKeepsLayout(found, s);
    case Move(m) =>
      var pc := s.pcs[m];
      if BeforeCount(pc) { ReplyMoveKeeps(found, s, m); }
      else if HasPassed(pc) { WinnerMoveKeeps(found, s, m); }
      else if pc.ReadOnce? { SwapKeeps(found, s, m); }
      else if pc.Swapped? { SecondReadKeeps(found, s, m); }
      else { CountKeeps(found, s, m); }
      if pc.Queued? { LookupKeepsLayout(found, s, m); }
      else if pc.Reserved? || pc.HeaderIn? { WriteKeepsLayout(found, s, m); }
      else if pc.Cleared? { ReserveEndKeepsLayout(found, s, m); }
      else if pc.EndReserved? { WriteEndKeepsLayout(found, s, m); }
      else { RestKeepsLayout(found, s, m); }
  }

  lemma {:induction false} NoRepliesYet(pcs: seq<Pc>)
    requires forall i :: 0 <= i < |pcs| ==> pcs[i] == Unposted
    ensures Replies(pcs) == 0
  {
    if pcs != [] {
      NoRepliesYet(pcs[1..]);
    }
  }

  lemma InitInv(found: seq<bool>)
    requires |found| >= 1
    ensures CountInv(|found|, Init(found)) && LayoutInv(found, Init(found))
  {
    NoRepliesYet(Init(found).pcs);
  }

  lemma {:induction false} RunKeeps(found: seq<bool>, s: State, steps: seq<Step>)
    requires CountInv(|found|, s) && LayoutInv(found, s) && Legal(found, s, steps)
    ensures CountInv(|found|, After(found, s, steps)) && LayoutInv(found, After(found, s, steps))
    decreases |steps|
  {
    hide CountInv, LayoutInv, Enabled, Do;
    if steps != [] {
      StepKeeps(found, s, steps[0]);
      RunKeeps(found, Do(found, s, steps[0]), steps[1..]);
    }
  }

  /** A message that has passed the completion test. */
  predicate Won(s: State, m: nat) {
    m in s.trace.winners
  }

  ghost predicate Finished(s: State) {
    s.comm.CommDone? && forall m :: 0 <= m < |s.pcs| ==> s.pcs[m].Done?
  }

  /**
   In every interleaving no worker passes the completion test before all n replies are
   counted, and the store and the reply buffer have been asked for every key by then.
   */
  lemma NoEarlyCompletion(found: seq<bool>, steps: seq<Step>, w: nat)
    requires |found| >= 1 && Legal(found, Init(found), steps)
    requires Won(After(found, Init(found), steps), w)
    ensures var s := After(found, Init(found), steps);
      s.comm.CommDone? && |s.pcs| == |found| && forall m :: 0 <= m < |found| ==> HasCounted(s.pcs[m])
  {
    InitInv(found);
    RunKeeps(found, Init(found), steps);
    AllCounted(|found|, After(found, Init(found), steps));
  }

  /**
   Who passes: the message whose swap took replyCount from n to 0, and every message whose
   swap comes after that one and whose second read of reqCount comes after it was cleared.
   */
  lemma WhoCompletes(found: seq<bool>, steps: seq<Step>)
    requires |found| >= 1 && Legal(found, Init(found), steps) && Finished(After(found, Init(found), steps))
    ensures var s := After(found, Init(found), steps);
      && s.captured.Some? && s.captured.value !in s.trace.lateSwap
      && s.trace.winners == {s.captured.value} + s.trace.lateSwap * s.trace.lateRead
    ensures var s := After(found, Init(found), steps);
      |s.trace.winners| == 1 <==> s.trace.lateSwap * s.trace.lateRead == {}
  {
    InitInv(found);
    RunKeeps(found, Init(found), steps);
    var s := After(found, Init(found), steps);
    AllReplied(s.pcs);
    var c := s.captured.value;
    var late := s.trace.lateSwap * s.trace.lateRead;
    if late == {} {
      assert s.trace.winners == {c};
    } else {
      var m :| m in late;
      assert {c, m} <= s.trace.winners && |{c, m}| == 2;
      SubsetSize({c, m}, s.trace.winners);
    }
  }

  lemma {:induction false} SubsetSize(a: set<nat>, b: set<nat>)
    requires a <= b
    ensures |a| <= |b|
  {
    if a != {} {
      var x :| x in a;
      SubsetSize(a - {x}, b - {x});
    }
  }

  // ---------------------------------------------------------------- exactly one completion

  /** Between its increment of replyCount and its second read of reqCount. */
  predicate InTest(pc: Pc) {
    pc.Counted? || pc.Testing? || pc.ReadOnce? || pc.Swapped?
  }

  ghost predicate OneInTest(s: State) {
    forall l, m :: 0 <= l < m < |s.pcs| ==> !(InTest(s.pcs[l]) && InTest(s.pcs[m]))
  }

  /** No worker's increment-and-test is interleaved with another's. */
  ghost predicate TestsInTurn(found: seq<bool>, s: State, steps: seq<Step>)
    requires Legal(found, s, steps)
    decreases |steps|
  {
    OneInTest(s) && (steps != [] ==> TestsInTurn(found, Do(found, s, steps[0]), steps[1..]))
  }

  ghost predicate TurnInv(s: State) {
    && s.trace.lateSwap == {}
    && (s.captured != None ==> forall m :: 0 <= m < |s.pcs| && s.captured != Some(m) ==> !InTest(s.pcs[m]))
  }

  lemma TurnMoveKeeps(found: seq<bool>, s: State, m: nat)
    requires CountInv(|found|, s) && TurnInv(s) && OneInTest(s) && Enabled(found, s, Move(m))
    ensures TurnInv(DoMove(found, s, m))
  {
    assert MessageInv(|found|, s, m);
    hide CountInv, CommInv, CaptureInv;
    var t := DoMove(found, s, m);
    assert forall l :: 0 <= l < |s.pcs| && l != m ==> t.pcs[l] == s.pcs[l];
  }

  lemma TurnKeeps(found: seq<bool>, s: State, step: Step)
    requires CountInv(|found|, s) && TurnInv(s) && OneInTest(s) && Enabled(found, s, step)
    ensures TurnInv(Do(found, s, step))
  {
    if s.captured != None {
      AllCounted(|found|, s);
    }
    if step.Move? {
      TurnMoveKeeps(found, s, step.m);
    } else {
      hide CountInv, InTest;
    }
  }

  lemma {:induction false} TurnRunKeeps(found: seq<bool>, s: State, steps: seq<Step>)
    requires CountInv(|found|, s) && LayoutInv(found, s) && TurnInv(s)
    requires Legal(found, s, steps) && TestsInTurn(found, s, steps)
    ensures TurnInv(After(found, s, steps))
    decreases |steps|
  {
    hide CountInv, LayoutInv, Enabled, Do, TurnInv;
    if steps != [] {
      StepKeeps(found, s, steps[0]);
      TurnKeeps(found, s, steps[0]);
      TurnRunKeeps(found, Do(found, s, steps[0]), steps[1..]);
    }
  }

  /** If the tests are taken in turn, exactly one worker completes the command. */
  lemma ExactlyOneCompletes(found: seq<bool>, steps: seq<Step>)
    requires |found| >= 1 && Legal(found, Init(found), steps) && TestsInTurn(found, Init(found), steps)
    requires Finished(After(found, Init(found), steps))
    ensures |After(found, Init(found), steps).trace.winners| == 1
  {
    InitInv(found);
    TurnRunKeeps(found, Init(found), steps);
    WhoCompletes(found, steps);
  }

  lemma {:induction false} RunOn(found: seq<bool>, s: State, steps: seq<Step>, more: seq<Step>)
    requires Legal(found, s, steps) && Legal(found, After(found, s, steps), more)
    ensures Legal(found, s, steps + more) && After(found, s, steps + more) == After(found, After(found, s, steps), more)
    decreases |steps|
  {
    if steps == [] {
      assert steps + more == more;
    } else {
      assert (steps + more)[1..] == steps[1..] + more;
      RunOn(found, Do(found, s, steps[0]), steps[1..], more);
    }
  }

  // Two keys, neither found: both are posted, both replies are counted, the first worker
  // takes its test and clears reqCount, and then the second finds 0 == 0.
  const NEITHER := [false, false]
  const POSTED := State(CommDone, false, 2, 0, 0, [Queued, Queued], map[], [], [], None, false, false, Trace(0, {}, {}, {}))
  const COUNTED := POSTED.(replyCount := 2, pcs := [Counted(1), Counted(2)], trace := Trace(1, {}, {}, {}))
  const CLEARED := COUNTED.(replyCount := 0, reqCount := 0, pcs := [Cleared, Counted(2)],
                            captured := Some(0), cleared := true, trace := Trace(1, {}, {}, {0}))

  lemma PostBoth()
    ensures Legal([false, false], Init([false, false]), [Comm, Comm, Comm, Comm, Comm, Comm, Comm, Comm])
    ensures After([false, false], Init([false, false]), [Comm, Comm, Comm, Comm, Comm, Comm, Comm, Comm]) == POSTED
  {
    assert Init(NEITHER).pcs == [Unposted, Unposted];
  }

  lemma CountBoth()
    ensures Legal([false, false], POSTED, [Move(0), Move(0), Move(1), Move(1)])
    ensures After([false, false], POSTED, [Move(0), Move(0), Move(1), Move(1)]) == COUNTED
  {
  }

  lemma FirstCompletes()
    ensures Legal([false, false], COUNTED, [Move(0), Move(0), Move(0), Move(0), Move(0)])
    ensures After([false, false], COUNTED, [Move(0), Move(0), Move(0), Move(0), Move(0)]) == CLEARED
  {
  }

  const BOTH_WON := CLEARED.(pcs := [Cleared, Passed], trace := Trace(1, {1}, {1}, {0, 1}))

  lemma SecondCompletes()
    ensures Legal([false, false], CLEARED, [Move(1), Move(1), Move(1), Move(1)])
    ensures After([false, false], CLEARED, [Move(1), Move(1), Move(1), Move(1)]) == BOTH_WON
  {
  }

  /** In general it is not one: with two keys both workers can complete the command. */
  lemma BothComplete() returns (steps: seq<Step>)
    ensures Legal(NEITHER, Init(NEITHER), steps)
    ensures After(NEITHER, Init(NEITHER), steps) == BOTH_WON && BOTH_WON.trace.winners == {0, 1}
  {
    hide Legal, After;
    PostBoth();
    CountBoth();
    FirstCompletes();
    SecondCompletes();
    steps := [Comm, Comm, Comm, Comm, Comm, Comm, Comm, Comm];
    RunOn(NEITHER, Init(NEITHER), steps, [Move(0), Move(0), Move(1), Move(1)]);
    steps := steps + [Move(0), Move(0), Move(1), Move(1)];
    RunOn(NEITHER, Init(NEITHER), steps, [Move(0), Move(0), Move(0), Move(0), Move(0)]);
    steps := steps + [Move(0), Move(0), Move(0), Move(0), Move(0)];
    RunOn(NEITHER, Init(NEITHER), steps, [Move(1), Move(1), Move(1), Move(1)]);
    steps := steps + [Move(1), Move(1), Move(1), Move(1)];
  }

  // ---------------------------------------------------------------- every get comes to an end

  /** How many steps the comm thread has left, and a message at most. */
  function CommLeft(n: nat, comm: CommPc): nat {
    match comm
    case Reading(i) => if i < n then 4 * (n - i) else 0
    case Writing(i, _) => if i < n then 4 * (n - i) - 1 else 0
    case Closing(i) => if i < n then 4 * (n - i) - 2 else 0
    case Posting(i) => if i < n then 4 * (n - i) - 3 else 0
    case CommDone => 0
  }

  function StepsLeft(pc: Pc): nat {
    match pc
    case Unposted => 13
    case Queued => 12
    case Reserved(_) => 11
    case HeaderIn(_) => 10
    case Served => 9
    case Counted(_) => 8
    case Testing(_) => 7
    case ReadOnce(_, _) => 6
    case Swapped(_, _) => 5
    case Passed => 4
    case Cleared => 3
    case EndReserved(_) => 2
    case EndWritten(_) => 1
    case Done => 0
  }

  function AllLeft(pcs: seq<Pc>): nat {
    if pcs == [] then 0 else StepsLeft(pcs[0]) + AllLeft(pcs[1..])
  }

  lemma {:induction false} AllLeftUpdate(pcs: seq<Pc>, m: nat, pc: Pc)
    requires m < |pcs|
    ensures AllLeft(pcs[m := pc]) == AllLeft(pcs) - StepsLeft(pcs[m]) + StepsLeft(pc)
  {
    if m == 0 {
      assert pcs[m := pc][1..] == pcs[1..];
    } else {
      assert pcs[m := pc][1..] == pcs[1..][m - 1 := pc];
      AllLeftUpdate(pcs[1..], m - 1, pc);
    }
  }

  function Left(found: seq<bool>, s: State): nat {
    CommLeft(|found|, s.comm) + AllLeft(s.pcs)
  }

  lemma MoveIsNearer(found: seq<bool>, s: State, m: nat)
    requires Enabled(found, s, Move(m))
    ensures var t := DoMove(found, s, m);
      t.comm == s.comm && |t.pcs| == |s.pcs| && t.pcs == s.pcs[m := t.pcs[m]] && StepsLeft(t.pcs[m]) < StepsLeft(s.pcs[m])
  {
    hide DoMove, Write, Slot;
    var pc := s.pcs[m];
    if BeforeCount(pc) { ReplyMoveIs(found, s, m); LookupIsNearer(found, s, m); }
    else if pc.Served? { CountedMoveIs(found, s, m); }
    else if Tests(pc) { TestMoveIs(found, s, m); TestIsNearer(found, s, m); }
    else { WinMoveIs(found, s, m); }
  }

  lemma LookupIsNearer(found: seq<bool>, s: State, m: nat)
    requires Enabled(found, s, Move(m)) && BeforeCount(s.pcs[m])
    ensures |DoMove(found, s, m).pcs| == |s.pcs| && StepsLeft(DoMove(found, s, m).pcs[m]) < StepsLeft(s.pcs[m])
  {
    hide Slot, Write;
  }

  lemma TestIsNearer(found: seq<bool>, s: State, m: nat)
    requires Enabled(found, s, Move(m)) && Tests(s.pcs[m])
    ensures |DoMove(found, s, m).pcs| == |s.pcs| && StepsLeft(DoMove(found, s, m).pcs[m]) < StepsLeft(s.pcs[m])
  {
    hide Slot, Write;
  }

  lemma StepIsNearer(found: seq<bool>, s: State, step: Step)
    requires CountInv(|found|, s) && Enabled(found, s, step)
    ensures Left(found, Do(found, s, step)) < Left(found, s)
  {
    if step.Move? {
      MoveIsNearer(found, s, step.m);
      hide DoMove, StepsLeft, CountInv;
      AllLeftUpdate(s.pcs, step.m, DoMove(found, s, step.m).pcs[step.m]);
    } else if s.comm.Posting? {
      AllLeftUpdate(s.pcs, s.comm.i, Queued);
    }
  }

  /** While a get is not finished some step can be taken. */
  lemma SomeoneMoves(found: seq<bool>, s: State) returns (step: Step)
    requires CountInv(|found|, s) && !Finished(s)
    ensures Enabled(found, s, step)
  {
    if s.comm != CommDone {
      step := Comm;
    } else {
      var m: nat :| m < |s.pcs| && !s.pcs[m].Done?;
      step := Move(m);
    }
  }

  /** No message ever waits for another: whatever has been posted and is not done can move, and so can the comm thread. */
  lemma NobodyWaits(found: seq<bool>, steps: seq<Step>, m: nat)
    requires |found| >= 1 && Legal(found, Init(found), steps) && m < |found|
    ensures var s := After(found, Init(found), steps);
      && |s.pcs| == |found|
      && (Enabled(found, s, Comm) <==> s.comm != CommDone)
      && (Enabled(found, s, Move(m)) <==> m < Posted(|found|, s.comm) && s.pcs[m] != Done)
  {
    InitInv(found);
    RunKeeps(found, Init(found), steps);
  }

  lemma {:induction false} RunIsNearer(found: seq<bool>, s: State, steps: seq<Step>)
    requires CountInv(|found|, s) && LayoutInv(found, s) && Legal(found, s, steps)
    ensures |steps| + Left(found, After(found, s, steps)) <= Left(found, s)
    decreases |steps|
  {
    hide CountInv, LayoutInv, Enabled, Do, Left;
    if steps != [] {
      StepKeeps(found, s, steps[0]);
      StepIsNearer(found, s, steps[0]);
      RunIsNearer(found, Do(found, s, steps[0]), steps[1..]);
    }
  }

  lemma FinishesFrom(found: seq<bool>, s: State) returns (rest: seq<Step>)
    requires CountInv(|found|, s) && LayoutInv(found, s)
    ensures Legal(found, s, rest) && Finished(After(found, s, rest))
    decreases Left(found, s)
  {
    hide CountInv, LayoutInv, Enabled, Do, Left, Finished;
    if Finished(s) {
      rest := [];
    } else {
      var step := SomeoneMoves(found, s);
      StepKeeps(found, s, step);
      StepIsNearer(found, s, step);
      rest := FinishesFrom(found, Do(found, s, step));
      rest := [step] + rest;
    }
  }

  /**
   No run of a get is longer than so many steps for its keys, and from wherever it has come it
   can be finished; so, whatever the order of the steps, it ends with some worker completing it.
   */
  lemma EveryGetFinishes(found: seq<bool>, steps: seq<Step>) returns (rest: seq<Step>)
    requires |found| >= 1 && Legal(found, Init(found), steps)
    ensures |steps| <= 17 * |found|
    ensures Legal(found, Init(found), steps + rest) && Finished(After(found, Init(found), steps + rest))
    ensures After(found, Init(found), steps + rest).trace.winners != {}
  {
    InitInv(found);
    RunIsNearer(found, Init(found), steps);
    RunKeeps(found, Init(found), steps);
    UnpostedLeft(Init(found).pcs);
    var s := After(found, Init(found), steps);
    hide Legal, After, CountInv, LayoutInv;
    rest := FinishesFrom(found, s);
    RunOn(found, Init(found), steps, rest);
    WhoCompletes(found, steps + rest);
  }

  lemma {:induction false} UnpostedLeft(pcs: seq<Pc>)
    requires forall m :: 0 <= m < |pcs| ==> pcs[m] == Unposted
    ensures AllLeft(pcs) == 13 * |pcs|
  {
    if pcs != [] {
      UnpostedLeft(pcs[1..]);
    }
  }

  // ---------------------------------------------------------------- the layout at completion

  /** What a slot holds once the pairs are in and some of those that reserved for END have written. */
  function Expected(s: State, k: nat): seq<Item> {
    var pairs := 2 * |s.order|;
    if k < pairs then [if k % 2 == 0 then Header(s.order[k / 2]) else Data(s.order[k / 2])]
    else if k - pairs < |s.enders| && s.enders[k - pairs] < |s.pcs| && s.pcs[s.enders[k - pairs]].EndWritten? then [End]
    else []
  }

  /** No slot but those of the pairs and the one right behind them has been reserved or written. */
  ghost predicate JustPairsAndEnd(s: State) {
    && s.iovIndex == 2 * |s.order| + 1
    && (forall j :: 0 <= j < |s.order| ==>
          Slot(s, 2 * j) == [Header(s.order[j])] && Slot(s, 2 * j + 1) == [Data(s.order[j])])
    && Slot(s, 2 * |s.order|) == [End]
    && forall k :: k > 2 * |s.order| ==> Slot(s, k) == []
  }

  lemma PairsAreIn(found: seq<bool>, s: State, w: nat)
    requires |found| >= 1 && CountInv(|found|, s) && LayoutInv(found, s)
    requires !s.indexReset && w < |s.pcs| && s.pcs[w].EndWritten?
    ensures forall i, j :: 0 <= i < j < |s.order| ==> s.order[i] != s.order[j]
    ensures forall k :: k in s.order <==> 0 <= k < |found| && found[k]
    ensures forall j :: 0 <= j < |s.order| ==>
      Slot(s, 2 * j) == [Header(s.order[j])] && Slot(s, 2 * j + 1) == [Data(s.order[j])]
  {
    assert OwnerInv(found, s, w) && MessageInv(|found|, s, w);
    AllCounted(|found|, s);
    hide CountInv;
    forall j | 0 <= j < |s.order|
      ensures Slot(s, 2 * j) == [Header(s.order[j])] && Slot(s, 2 * j + 1) == [Data(s.order[j])]
    {
      assert PairInv(found, s, j);
    }
    forall k
      ensures k in s.order <==> 0 <= k < |found| && found[k]
    {
      if 0 <= k < |found| {
        assert OwnerInv(found, s, k);
      }
      if k in s.order {
        var j :| 0 <= j < |s.order| && s.order[j] == k;
        assert PairInv(found, s, j);
      }
    }
  }

  /** Those that reserved for END are different winners. */
  lemma EndersAreWinners(found: seq<bool>, s: State)
    requires CountInv(|found|, s) && LayoutInv(found, s) && !s.indexReset
    ensures forall i :: 0 <= i < |s.enders| ==> s.enders[i] in s.trace.winners
    ensures forall i, j :: 0 <= i < j < |s.enders| ==> s.enders[i] != s.enders[j]
  {
    forall i | 0 <= i < |s.enders|
      ensures s.enders[i] in s.trace.winners
    {
      assert EndInv(s, i) && MessageInv(|found|, s, s.enders[i]);
    }
    forall i, j | 0 <= i < j < |s.enders|
      ensures s.enders[i] != s.enders[j]
    {
      assert EndInv(s, i) && EndInv(s, j);
    }
  }

  /**
   When a worker has written END and none has reset the index yet, every slot is accounted
   for: one adjacent VALUE line and data block for each key found, in reservation order, each
   slot written once and none shared or skipped; behind them one slot for each winner that
   has reserved one, in the order of their reservations, with END in it or still empty; and
   nothing after that. So END follows the pairs directly if and only if its writer reserved
   first, and nothing else follows if and only if no other winner has reserved.
   */
  lemma ReplyLayout(found: seq<bool>, steps: seq<Step>, w: nat)
    requires |found| >= 1 && Legal(found, Init(found), steps)
    requires var s := After(found, Init(found), steps);
      !s.indexReset && w < |s.pcs| && s.pcs[w].EndWritten?
    ensures var s := After(found, Init(found), steps);
      && (forall i, j :: 0 <= i < j < |s.order| ==> s.order[i] != s.order[j])
      && (forall k :: k in s.order <==> 0 <= k < |found| && found[k])
      && (forall k :: k >= 0 ==> Slot(s, k) == Expected(s, k))
      && s.iovIndex == 2 * |s.order| + |s.enders|
      && (forall i, j :: 0 <= i < j < |s.enders| ==> s.enders[i] != s.enders[j])
      && (forall i :: 0 <= i < |s.enders| ==> s.enders[i] in s.trace.winners)
      && (forall i :: 0 <= i < |s.enders| ==> (s.enders[i] == w <==> s.pcs[w].index == 2 * |s.order| + i))
      && w in s.enders
    ensures var s := After(found, Init(found), steps);
      && (s.pcs[w].index == 2 * |s.order| <==> s.enders[0] == w)
      && (JustPairsAndEnd(s) <==> s.enders == [w])
  {
    InitInv(found);
    RunKeeps(found, Init(found), steps);
    hide Legal, After;
    SlotsAsExpected(found, After(found, Init(found), steps), w);
    JustPairsExactly(After(found, Init(found), steps), w);
  }

  lemma SlotsAsExpected(found: seq<bool>, s: State, w: nat)
    requires |found| >= 1 && CountInv(|found|, s) && LayoutInv(found, s)
    requires !s.indexReset && w < |s.pcs| && s.pcs[w].EndWritten?
    ensures forall i, j :: 0 <= i < j < |s.order| ==> s.order[i] != s.order[j]
    ensures forall k :: k in s.order <==> 0 <= k < |found| && found[k]
    ensures forall k :: k >= 0 ==> Slot(s, k) == Expected(s, k)
    ensures s.iovIndex == 2 * |s.order| + |s.enders| && w in s.enders
    ensures forall i, j :: 0 <= i < j < |s.enders| ==> s.enders[i] != s.enders[j]
    ensures forall i :: 0 <= i < |s.enders| ==> s.enders[i] in s.trace.winners
    ensures forall i :: 0 <= i < |s.enders| ==> (s.enders[i] == w <==> s.pcs[w].index == 2 * |s.order| + i)
  {
    PairsAreIn(found, s, w);
    EndersAreWinners(found, s);
    hide CountInv;
    assert OwnerInv(found, s, w);
    var own :| 0 <= own < |s.enders| && s.enders[own] == w;
    assert EndInv(s, own);
    forall k | k >= 0 ensures Slot(s, k) == Expected(s, k) {
      SlotAsExpected(found, s, k);
    }
  }

  lemma ExpectedPairs(s: State, j: nat)
    requires j < |s.order|
    ensures Expected(s, 2 * j) == [Header(s.order[j])] && Expected(s, 2 * j + 1) == [Data(s.order[j])]
  {
  }

  lemma ExpectedTail(s: State, i: nat)
    ensures Expected(s, 2 * |s.order| + i) ==
      if i < |s.enders| && s.enders[i] < |s.pcs| && s.pcs[s.enders[i]].EndWritten? then [End] else []
  {
  }

  lemma SlotAsExpected(found: seq<bool>, s: State, k: nat)
    requires LayoutInv(found, s) && !s.indexReset
    requires forall j :: 0 <= j < |s.order| ==>
      Slot(s, 2 * j) == [Header(s.order[j])] && Slot(s, 2 * j + 1) == [Data(s.order[j])]
    ensures Slot(s, k) == Expected(s, k)
  {
    hide Slot, Expected;
    if k < 2 * |s.order| {
      ExpectedPairs(s, k / 2);
      assert k == 2 * (k / 2) || k == 2 * (k / 2) + 1;
    } else {
      var i := k - 2 * |s.order|;
      ExpectedTail(s, i);
      if i < |s.enders| {
        assert EndInv(s, i);
      } else {
        assert TailInv(s, k);
      }
    }
  }

  lemma JustPairsExactly(s: State, w: nat)
    requires forall k :: k >= 0 ==> Slot(s, k) == Expected(s, k)
    requires s.iovIndex == 2 * |s.order| + |s.enders| && w in s.enders && w < |s.pcs| && s.pcs[w].EndWritten?
    ensures JustPairsAndEnd(s) <==> s.enders == [w]
  {
    hide Slot, Expected;
    assert |s.enders| == 1 ==> s.enders == [s.enders[0]] && s.enders[0] == w;
    if s.enders == [w] {
      forall j | 0 <= j < |s.order|
        ensures Slot(s, 2 * j) == [Header(s.order[j])] && Slot(s, 2 * j + 1) == [Data(s.order[j])]
      {
        ExpectedPairs(s, j);
      }
      forall k | k >= 2 * |s.order|
        ensures Slot(s, k) == if k == 2 * |s.order| then [End] else []
      {
        ExpectedTail(s, k - 2 * |s.order|);
      }
    }
  }

  /** With one winner the reply is the pairs and END, right behind them and nothing else. */
  lemma LayoutIsExact(found: seq<bool>, steps: seq<Step>, w: nat)
    requires |found| >= 1 && Legal(found, Init(found), steps)
    requires var s := After(found, Init(found), steps);
      !s.indexReset && w < |s.pcs| && s.pcs[w].EndWritten? && s.trace.lateSwap * s.trace.lateRead == {}
    ensures var s := After(found, Init(found), steps);
      JustPairsAndEnd(s) && s.pcs[w].index == 2 * |s.order|
  {
    ReplyLayout(found, steps, w);
    InitInv(found);
    RunKeeps(found, Init(found), steps);
    hide Legal, After;
    var s := After(found, Init(found), steps);
    OneWinner(found, s);
    NoMoreThan(s.enders, s.trace.winners);
    assert s.enders == [s.enders[0]];
  }

  lemma OneWinner(found: seq<bool>, s: State)
    requires CountInv(|found|, s) && s.trace.lateSwap * s.trace.lateRead == {}
    ensures |s.trace.winners| <= 1
  {
  }

  lemma {:induction false} NoMoreThan(q: seq<nat>, all: set<nat>)
    requires forall i :: 0 <= i < |q| ==> q[i] in all
    requires forall i, j :: 0 <= i < j < |q| ==> q[i] != q[j]
    ensures |q| <= |all|
  {
    if q != [] {
      NoMoreThan(q[1..], all - {q[0]});
    }
  }

  /** As it is whenever the tests are taken in turn. */
  lemma LayoutIsExactInTurn(found: seq<bool>, steps: seq<Step>, w: nat)
    requires |found| >= 1 && Legal(found, Init(found), steps) && TestsInTurn(found, Init(found), steps)
    requires var s := After(found, Init(found), steps);
      !s.indexReset && w < |s.pcs| && s.pcs[w].EndWritten?
    ensures JustPairsAndEnd(After(found, Init(found), steps))
  {
    InitInv(found);
    TurnRunKeeps(found, Init(found), steps);
    hide Legal, After;
    LayoutIsExact(found, steps, w);
  }

  lemma SecondWritesFirst()
    ensures Legal([false, false], BOTH_WON, [Move(0), Move(1), Move(1), Move(1)])
    ensures var s := After([false, false], BOTH_WON, [Move(0), Move(1), Move(1), Move(1)]);
      && !s.indexReset && s.pcs == [EndReserved(0), EndWritten(1)] && s.order == []
      && Slot(s, 0) == [] && Slot(s, 1) == [End]
  {
  }

  /** In general a completed reply can have a hole in front of END. */
  lemma EndCanFollowAGap() returns (steps: seq<Step>)
    ensures Legal(NEITHER, Init(NEITHER), steps)
    ensures var s := After(NEITHER, Init(NEITHER), steps);
      !s.indexReset && s.pcs == [EndReserved(0), EndWritten(1)] && s.order == [] && Slot(s, 0) == [] && Slot(s, 1) == [End]
  {
    hide Legal, After;
    steps := BothComplete();
    SecondWritesFirst();
    RunOn(NEITHER, Init(NEITHER), steps, [Move(0), Move(1), Move(1), Move(1)]);
    steps := steps + [Move(0), Move(1), Move(1), Move(1)];
  }

  // ---------------------------------------------------------------- after the reset of the index

  /** From the completing swap on only workers move, and none of them looks for a key. */
  ghost predicate LateInv(found: seq<bool>, s: State) {
    CountInv(|found|, s) && LayoutInv(found, s) && s.captured.Some?
  }

  lemma LateStep(found: seq<bool>, s: State, step: Step)
    requires LateInv(found, s) && Enabled(found, s, step)
    ensures step.Move? && HasCounted(s.pcs[step.m]) && !s.concPending && s.replyCount == 0 && (s.cleared ==> s.reqCount == 0)
    ensures LateInv(found, Do(found, s, step))
  {
    AllCounted(|found|, s);
    StepKeeps(found, s, step);
    assert CommInv(|found|, s);
    hide CountInv, LayoutInv, CommInv, Legal, After;
  }

  predicate Tests(pc: Pc) {
    pc.Counted? || pc.Testing? || pc.ReadOnce? || pc.Swapped?
  }

  lemma CountedMoveIs(found: seq<bool>, s: State, m: nat)
    requires Enabled(found, s, Move(m)) && s.pcs[m].Served?
    ensures DoMove(found, s, m) ==
      s.(replyCount := s.replyCount + 1, pcs := s.pcs[m := Counted(s.replyCount + 1)], trace := s.trace.(last := m))
  {
  }

  lemma TestMoveIs(found: seq<bool>, s: State, m: nat)
    requires Enabled(found, s, Move(m)) && Tests(s.pcs[m])
    ensures var t := DoMove(found, s, m);
      && t == s.(replyCount := t.replyCount, captured := t.captured, trace := t.trace, pcs := s.pcs[m := t.pcs[m]])
      && |t.pcs| == |s.pcs| && t.trace.winners == (if t.pcs[m].Passed? then s.trace.winners + {m} else s.trace.winners)
      && (t.pcs[m].Passed? || t.pcs[m].Done? || Tests(t.pcs[m]))
      && (s.replyCount == 0 ==> t.replyCount == 0) && (s.captured.Some? ==> t.captured == s.captured)
  {
    hide Slot;
  }

  lemma WinMoveIs(found: seq<bool>, s: State, m: nat)
    requires Enabled(found, s, Move(m)) && HasPassed(s.pcs[m])
    ensures DoMove(found, s, m) ==
      match s.pcs[m]
      case Passed => s.(reqCount := 0, cleared := true, pcs := s.pcs[m := Cleared])
      case Cleared => s.(iovIndex := s.iovIndex + 1, enders := s.enders + [m], pcs := s.pcs[m := EndReserved(s.iovIndex)])
      case EndReserved(index) => s.(slots := Write(s, index, End).slots, pcs := s.pcs[m := EndWritten(index)])
      case _ => s.(iovIndex := 0, indexReset := true, pcs := s.pcs[m := Done])
  {
    hide Slot;
  }

  /** What every step of a worker leaves alone. */
  lemma MoveFrame(found: seq<bool>, s: State, m: nat)
    requires Enabled(found, s, Move(m))
    ensures var t, pc := DoMove(found, s, m), s.pcs[m];
      && |t.pcs| == |s.pcs| && t.pcs == s.pcs[m := t.pcs[m]]
      && s.trace.winners <= t.trace.winners <= s.trace.winners + {m} && (t.pcs[m].Done? && m in t.trace.winners ==> m in s.trace.winners)
      && |s.enders| <= |t.enders| && (s.cleared ==> t.cleared) && (s.captured.Some? ==> t.captured == s.captured)
      && (s.indexReset ==> t.indexReset) && (t.indexReset && !s.indexReset ==> pc.EndWritten? && t.iovIndex == 0 && t.pcs[m].Done?)
      && (t.pcs[m].Cleared? ==> t.cleared) && (t.pcs[m].EndReserved? ==> pc.Cleared?) && (t.pcs[m].EndWritten? ==> pc.EndReserved?)
      && (t.iovIndex == s.iovIndex || t.iovIndex == 0 || BeforeCount(pc) || pc.Cleared?)
  {
    hide DoMove, Write, Slot;
    var pc := s.pcs[m];
    if BeforeCount(pc) { ReplyMoveIs(found, s, m); }
    else if pc.Served? { CountedMoveIs(found, s, m); }
    else if Tests(pc) { TestMoveIs(found, s, m); }
    else { WinMoveIs(found, s, m); }
  }

  lemma OnlyItMoves(found: seq<bool>, s: State, m: nat, w: nat)
    requires Enabled(found, s, Move(m)) && w < |s.pcs| && w != m
    ensures var t := DoMove(found, s, m); |t.pcs| == |s.pcs| && t.pcs[w] == s.pcs[w]
    ensures w in DoMove(found, s, m).trace.winners <==> w in s.trace.winners
  {
    MoveFrame(found, s, m);
    hide DoMove;
  }

  /** Whoever is behind the first step of a winner finds reqCount cleared; whoever reset the index is done. */
  ghost predicate ResetInv(s: State) {
    && (forall m :: 0 <= m < |s.pcs| ==> BehindClear(s, m))
    && (s.indexReset ==>
          s.cleared && s.captured.Some? && (|s.trace.winners| <= 1 ==> s.iovIndex == 0) && exists d: nat :: DoneWinner(s, d))
  }

  predicate BehindClear(s: State, m: nat)
    requires m < |s.pcs|
  {
    s.pcs[m].Cleared? || s.pcs[m].EndReserved? || s.pcs[m].EndWritten? ==> s.cleared
  }

  predicate DoneWinner(s: State, d: nat) {
    d < |s.pcs| && s.pcs[d].Done? && d in s.trace.winners
  }

  lemma CommKeepsReset(found: seq<bool>, s: State)
    requires ResetInv(s) && Enabled(found, s, Comm) && s.captured == None
    ensures ResetInv(DoComm(found, s))
  {
    forall m | 0 <= m < |s.pcs| ensures BehindClear(DoComm(found, s), m) {
      assert BehindClear(s, m);
    }
  }

  lemma MoveKeepsClear(found: seq<bool>, s: State, m: nat)
    requires ResetInv(s) && Enabled(found, s, Move(m))
    ensures var t := DoMove(found, s, m); |t.pcs| == |s.pcs| && forall l :: 0 <= l < |t.pcs| ==> BehindClear(t, l)
  {
    MoveFrame(found, s, m);
    hide DoMove;
    var t := DoMove(found, s, m);
    assert BehindClear(s, m);
    forall l | 0 <= l < |t.pcs| ensures BehindClear(t, l) {
      assert BehindClear(s, l);
    }
  }

  /** Two different winners. */
  lemma AtLeastTwo(all: set<nat>, d: nat, m: nat)
    requires d in all && m in all && d != m
    ensures |all| >= 2
  {
    SubsetSize({d, m}, all);
    assert |{d, m}| == 2;
  }

  lemma MoveKeepsIndex(found: seq<bool>, s: State, m: nat, d: nat)
    requires Enabled(found, s, Move(m)) && HasCounted(s.pcs[m]) && (HasPassed(s.pcs[m]) ==> m in s.trace.winners)
    requires DoneWinner(s, d) && (|s.trace.winners| <= 1 ==> s.iovIndex == 0)
    ensures var t := DoMove(found, s, m);
      DoneWinner(t, d) && (|t.trace.winners| <= 1 ==> t.iovIndex == 0)
  {
    MoveFrame(found, s, m);
    hide DoMove;
    var t := DoMove(found, s, m);
    SubsetSize(s.trace.winners, t.trace.winners);
    if s.pcs[m].Cleared? {
      AtLeastTwo(t.trace.winners, d, m);
    }
  }

  lemma MoveKeepsReset(found: seq<bool>, s: State, m: nat)
    requires CountInv(|found|, s) && LayoutInv(found, s) && ResetInv(s) && Enabled(found, s, Move(m))
    ensures ResetInv(DoMove(found, s, m))
  {
    if s.captured.Some? {
      LateStep(found, s, Move(m));
    }
    assert MessageInv(|found|, s, m);
    assert s.trace.winners != {} ==> s.captured.Some?;
    MoveFrame(found, s, m);
    hide CountInv, LayoutInv, LateInv, DoMove;
    MoveKeepsClear(found, s, m);
    var t := DoMove(found, s, m);
    if s.indexReset {
      var d: nat :| DoneWinner(s, d);
      MoveKeepsIndex(found, s, m, d);
    } else if t.indexReset {
      assert BehindClear(s, m) && DoneWinner(t, m);
    }
  }

  lemma ResetStepKeeps(found: seq<bool>, s: State, step: Step)
    requires CountInv(|found|, s) && LayoutInv(found, s) && ResetInv(s) && Enabled(found, s, step)
    ensures ResetInv(Do(found, s, step))
  {
    if step.Move? {
      MoveKeepsReset(found, s, step.m);
    } else {
      assert s.captured == None;
      CommKeepsReset(found, s);
    }
  }

  lemma {:induction false} ResetRunKeeps(found: seq<bool>, s: State, steps: seq<Step>)
    requires CountInv(|found|, s) && LayoutInv(found, s) && ResetInv(s) && Legal(found, s, steps)
    ensures ResetInv(After(found, s, steps))
    decreases |steps|
  {
    hide CountInv, LayoutInv, ResetInv, Enabled, Do;
    if steps != [] {
      StepKeeps(found, s, steps[0]);
      ResetStepKeeps(found, s, steps[0]);
      ResetRunKeeps(found, Do(found, s, steps[0]), steps[1..]);
    }
  }

  /** Nothing has happened that anyone can see but which messages are done. */
  predicate Untouched(s: State, t: State) {
    t == s.(pcs := t.pcs, trace := t.trace)
  }

  /** Reservations for END and the items in each slot only grow in number, and so do the winners. */
  ghost predicate Grown(s: State, t: State) {
    && |s.pcs| == |t.pcs| && |s.enders| <= |t.enders| && s.trace.winners <= t.trace.winners
    && forall k :: |Slot(s, k)| <= |Slot(t, k)|
  }

  lemma WriteGrows(s: State, k: nat, item: Item)
    ensures |Slot(Write(s, k, item), k)| == |Slot(s, k)| + 1
    ensures forall j :: |Slot(s, j)| <= |Slot(Write(s, k, item), j)|
  {
  }

  lemma StepGrows(found: seq<bool>, s: State, step: Step)
    requires LateInv(found, s) && Enabled(found, s, step)
    ensures LateInv(found, Do(found, s, step)) && Grown(s, Do(found, s, step))
  {
    LateStep(found, s, step);
    var m := step.m;
    MoveFrame(found, s, m);
    if s.pcs[m].EndReserved? {
      WriteGrows(s, s.pcs[m].index, End);
    }
    hide DoMove, LateInv, Write, Slot;
    if HasPassed(s.pcs[m]) { WinMoveIs(found, s, m); } else { TestMoveIs(found, s, m); }
    SameSlots(s, DoMove(found, s, m));
    if s.pcs[m].EndReserved? {
      SameSlots(Write(s, s.pcs[m].index, End), DoMove(found, s, m));
    }
  }

  lemma SameSlots(s: State, t: State)
    ensures s.slots == t.slots ==> forall k :: Slot(t, k) == Slot(s, k)
  {
  }

  lemma {:induction false} RunGrows(found: seq<bool>, s: State, steps: seq<Step>)
    requires LateInv(found, s) && Legal(found, s, steps)
    ensures Grown(s, After(found, s, steps))
    decreases |steps|
  {
    hide Enabled, Do, Slot, LateInv;
    if steps != [] {
      StepGrows(found, s, steps[0]);
      RunGrows(found, Do(found, s, steps[0]), steps[1..]);
    }
  }

  predicate PastEnd(pc: Pc) {
    pc.EndWritten? || pc.Done?
  }

  /** With the counters and the index clear, only a winner that has not written END touches anything. */
  lemma CalmStep(found: seq<bool>, s: State, m: nat)
    requires Enabled(found, s, Move(m)) && HasCounted(s.pcs[m]) && s.captured.Some? && s.cleared && s.indexReset
    requires s.iovIndex == 0 && s.reqCount == 0 && s.replyCount == 0
    requires !s.pcs[m].Cleared? && !s.pcs[m].EndReserved?
    ensures Untouched(s, DoMove(found, s, m)) && |DoMove(found, s, m).pcs| == |s.pcs|
    ensures PastEnd(s.pcs[m]) ==> PastEnd(DoMove(found, s, m).pcs[m])
  {
    hide DoMove;
    if HasPassed(s.pcs[m]) { WinMoveIs(found, s, m); } else { TestMoveIs(found, s, m); }
  }

  /** A step while every winner has written END. */
  lemma CalmMove(found: seq<bool>, s: State, step: Step)
    requires LateInv(found, s) && Enabled(found, s, step) && s.cleared && s.indexReset && s.iovIndex == 0
    requires forall w :: 0 <= w < |s.pcs| && w in s.trace.winners ==> PastEnd(s.pcs[w])
    ensures var t := Do(found, s, step);
      && LateInv(found, t) && |t.pcs| == |s.pcs| && Untouched(s, t)
      && forall w :: 0 <= w < |s.pcs| && PastEnd(s.pcs[w]) ==> PastEnd(t.pcs[w])
  {
    LateStep(found, s, step);
    assert MessageInv(|found|, s, step.m);
    hide LateInv;
    CalmStep(found, s, step.m);
    var t := Do(found, s, step);
    assert |t.pcs| == |s.pcs|;
    hide Untouched, DoMove;
    forall w | 0 <= w < |s.pcs| && PastEnd(s.pcs[w]) ensures PastEnd(t.pcs[w]) {
      if w != step.m {
        OnlyItMoves(found, s, step.m, w);
      }
    }
  }

  lemma {:induction false} CalmRun(found: seq<bool>, s: State, steps: seq<Step>)
    requires LateInv(found, s) && Legal(found, s, steps) && s.cleared && s.indexReset && s.iovIndex == 0
    requires forall w :: 0 <= w < |s.pcs| && w in After(found, s, steps).trace.winners ==> PastEnd(s.pcs[w])
    ensures Untouched(s, After(found, s, steps))
    decreases |steps|
  {
    hide LateInv, Do, Enabled, Slot;
    if steps != [] {
      RunGrows(found, s, steps);
      CalmMove(found, s, steps[0]);
      CalmRun(found, Do(found, s, steps[0]), steps[1..]);
    }
  }

  /** A reserved slot for END is written before its message is done. */
  lemma {:induction false} WritesLater(found: seq<bool>, s: State, steps: seq<Step>, w: nat)
    requires LateInv(found, s) && Legal(found, s, steps) && w < |s.pcs| && s.pcs[w].EndReserved?
    requires w < |After(found, s, steps).pcs| && After(found, s, steps).pcs[w].Done?
    ensures |Slot(After(found, s, steps), s.pcs[w].index)| > |Slot(s, s.pcs[w].index)|
    decreases |steps|
  {
    hide LateInv, Slot, DoMove;
    LateStep(found, s, steps[0]);
    StepGrows(found, s, steps[0]);
    if steps[0] == Move(w) {
      EndIsWritten(found, s, w);
      RunGrows(found, Do(found, s, steps[0]), steps[1..]);
    } else {
      OnlyItMoves(found, s, steps[0].m, w);
      WritesLater(found, Do(found, s, steps[0]), steps[1..], w);
    }
  }

  lemma EndIsWritten(found: seq<bool>, s: State, w: nat)
    requires Enabled(found, s, Move(w)) && s.pcs[w].EndReserved?
    ensures |Slot(DoMove(found, s, w), s.pcs[w].index)| == |Slot(s, s.pcs[w].index)| + 1
  {
    WriteGrows(s, s.pcs[w].index, End);
    WinMoveIs(found, s, w);
    hide DoMove;
  }

  /** A message that is done without having won never wins. */
  lemma {:induction false} DoneStays(found: seq<bool>, s: State, steps: seq<Step>, w: nat)
    requires LateInv(found, s) && Legal(found, s, steps)
    requires w < |s.pcs| && s.pcs[w].Done? && w !in s.trace.winners
    ensures w !in After(found, s, steps).trace.winners
    decreases |steps|
  {
    hide LateInv, DoMove;
    if steps != [] {
      LateStep(found, s, steps[0]);
      OnlyItMoves(found, s, steps[0].m, w);
      DoneStays(found, Do(found, s, steps[0]), steps[1..], w);
    }
  }

  /** Short of its reservation for END a message goes on, reserves, or is done without having won. */
  lemma OwnMove(found: seq<bool>, s: State, w: nat)
    requires Enabled(found, s, Move(w)) && HasCounted(s.pcs[w]) && !s.pcs[w].EndReserved? && !PastEnd(s.pcs[w])
    requires w in s.trace.winners ==> HasPassed(s.pcs[w])
    ensures var t := DoMove(found, s, w);
      && |t.pcs| == |s.pcs| && !t.pcs[w].EndWritten? && (t.pcs[w].Done? ==> w !in t.trace.winners)
      && (t.pcs[w].EndReserved? ==> |t.enders| == |s.enders| + 1)
  {
    hide DoMove;
    if HasPassed(s.pcs[w]) { WinMoveIs(found, s, w); } else { TestMoveIs(found, s, w); }
  }

  /** A winner that is done has reserved a slot for END. */
  lemma {:induction false} ReservesLater(found: seq<bool>, s: State, steps: seq<Step>, w: nat)
    requires LateInv(found, s) && Legal(found, s, steps)
    requires w < |s.pcs| && !s.pcs[w].EndReserved? && !PastEnd(s.pcs[w]) && DoneWinner(After(found, s, steps), w)
    ensures |After(found, s, steps).enders| > |s.enders|
    decreases |steps|
  {
    assert MessageInv(|found|, s, w);
    hide LateInv, DoMove, Slot;
    LateStep(found, s, steps[0]);
    StepGrows(found, s, steps[0]);
    var t := Do(found, s, steps[0]);
    RunGrows(found, t, steps[1..]);
    if steps[0] == Move(w) {
      OwnMove(found, s, w);
    } else {
      OnlyItMoves(found, s, steps[0].m, w);
    }
    if !t.pcs[w].EndReserved? {
      if t.pcs[w].Done? { DoneStays(found, t, steps[1..], w); } else { ReservesLater(found, t, steps[1..], w); }
    }
  }

  lemma LateAt(found: seq<bool>, steps: seq<Step>)
    requires |found| >= 1 && Legal(found, Init(found), steps) && After(found, Init(found), steps).indexReset
    ensures var s := After(found, Init(found), steps); LateInv(found, s) && ResetInv(s)
  {
    InitInv(found);
    RunKeeps(found, Init(found), steps);
    ResetRunKeeps(found, Init(found), steps);
    hide CountInv, LayoutInv, Legal, After;
  }

  /**
   From the reset of the index to the end of a run nothing is touched - no counter, no slot, no
   reservation - if and only if every winner had written END by then: a winner that had not
   reserves a slot, or writes one, that the next command may own.
   */
  lemma UntouchedExactly(found: seq<bool>, steps: seq<Step>, more: seq<Step>)
    requires |found| >= 1 && Legal(found, Init(found), steps)
    requires var s := After(found, Init(found), steps);
      s.indexReset && s.iovIndex == 0 && Legal(found, s, more) && Finished(After(found, s, more))
    ensures var s := After(found, Init(found), steps);
      var t := After(found, s, more);
      |s.pcs| == |t.pcs| && (Untouched(s, t) <==> forall w :: 0 <= w < |s.pcs| && w in t.trace.winners ==> PastEnd(s.pcs[w]))
  {
    LateAt(found, steps);
    hide LateInv, Legal, Init, Slot, BehindClear;
    var s := After(found, Init(found), steps);
    hide After;
    RunGrows(found, s, more);
    var t := After(found, s, more);
    if w: nat :| w < |s.pcs| && w in t.trace.winners && !PastEnd(s.pcs[w]) {
      if s.pcs[w].EndReserved? {
        WritesLater(found, s, more, w);
        SameSlots(s, t);
      } else {
        ReservesLater(found, s, more, w);
      }
    } else {
      CalmRun(found, s, more);
    }
  }

  /** With one winner nothing is, in any continuation. */
  lemma NothingAfterReset(found: seq<bool>, steps: seq<Step>, more: seq<Step>)
    requires |found| >= 1 && Legal(found, Init(found), steps) && After(found, Init(found), steps).indexReset
    requires Legal(found, After(found, Init(found), steps), more)
    requires var t := After(found, After(found, Init(found), steps), more);
      t.trace.lateSwap * t.trace.lateRead == {}
    ensures var s := After(found, Init(found), steps);
      s.reqCount == 0 && s.replyCount == 0 && s.iovIndex == 0 && Untouched(s, After(found, s, more))
  {
    LateAt(found, steps);
    var s := After(found, Init(found), steps);
    assert s.reqCount == 0 && s.replyCount == 0;
    RunKeeps(found, s, more);
    OneWinner(found, After(found, s, more));
    hide LateInv, CountInv, LayoutInv, Legal, After, Init, BehindClear, Slot;
    RunGrows(found, s, more);
    var t := After(found, s, more);
    SubsetSize(s.trace.winners, t.trace.winners);
    var d: nat :| DoneWinner(s, d);
    forall w | 0 <= w < |s.pcs| && w in t.trace.winners ensures PastEnd(s.pcs[w]) {
      if w != d {
        AtLeastTwo(t.trace.winners, d, w);
      }
    }
    CalmRun(found, s, more);
  }

  // The first worker resets the index, and then the second one writes END and resets it again.
  const RESERVED := BOTH_WON.(pcs := [EndReserved(0), Passed], iovIndex := 1, enders := [0])
  const WRITTEN := RESERVED.(pcs := [EndWritten(0), Passed], slots := map[0 := [End]])
  const RESET := WRITTEN.(pcs := [Done, Passed], iovIndex := 0, indexReset := true)
  const CLEARED_AGAIN := RESET.(pcs := [Done, Cleared])
  const RESERVED_AGAIN := CLEARED_AGAIN.(pcs := [Done, EndReserved(0)], iovIndex := 1, enders := [0, 1])
  const WRITTEN_AGAIN := RESERVED_AGAIN.(pcs := [Done, EndWritten(0)], slots := map[0 := [End, End]])
  const RESET_AGAIN := WRITTEN_AGAIN.(pcs := [Done, Done], iovIndex := 0)

  lemma StepTo(s: State, step: Step, t: State)
    requires Enabled(NEITHER, s, step) && Do(NEITHER, s, step) == t
    ensures Legal(NEITHER, s, [step]) && After(NEITHER, s, [step]) == t
  {
    hide Do, Enabled;
    assert [step][1..] == [];
  }

  lemma FirstEnds()
    ensures Legal(NEITHER, BOTH_WON, [Move(0)]) && After(NEITHER, BOTH_WON, [Move(0)]) == RESERVED
    ensures Legal(NEITHER, RESERVED, [Move(0)]) && After(NEITHER, RESERVED, [Move(0)]) == WRITTEN
    ensures Legal(NEITHER, WRITTEN, [Move(0)]) && After(NEITHER, WRITTEN, [Move(0)]) == RESET
  {
    hide Legal, After, DoMove;
    WinMoveIs(NEITHER, BOTH_WON, 0);
    StepTo(BOTH_WON, Move(0), RESERVED);
    WinMoveIs(NEITHER, RESERVED, 0);
    assert Slot(RESERVED, 0) + [End] == [End];
    assert Write(RESERVED, 0, End).slots == WRITTEN.slots;
    StepTo(RESERVED, Move(0), WRITTEN);
    WinMoveIs(NEITHER, WRITTEN, 0);
    StepTo(WRITTEN, Move(0), RESET);
  }

  lemma SecondReserves()
    ensures Legal(NEITHER, RESET, [Move(1)]) && After(NEITHER, RESET, [Move(1)]) == CLEARED_AGAIN
    ensures Legal(NEITHER, CLEARED_AGAIN, [Move(1)]) && After(NEITHER, CLEARED_AGAIN, [Move(1)]) == RESERVED_AGAIN
  {
    hide Legal, After, DoMove;
    WinMoveIs(NEITHER, RESET, 1);
    StepTo(RESET, Move(1), CLEARED_AGAIN);
    WinMoveIs(NEITHER, CLEARED_AGAIN, 1);
    StepTo(CLEARED_AGAIN, Move(1), RESERVED_AGAIN);
  }

  lemma SecondEnds()
    ensures Legal(NEITHER, RESERVED_AGAIN, [Move(1)]) && After(NEITHER, RESERVED_AGAIN, [Move(1)]) == WRITTEN_AGAIN
    ensures Legal(NEITHER, WRITTEN_AGAIN, [Move(1)]) && After(NEITHER, WRITTEN_AGAIN, [Move(1)]) == RESET_AGAIN
  {
    hide Legal, After, DoMove;
    WinMoveIs(NEITHER, RESERVED_AGAIN, 1);
    assert Slot(RESERVED_AGAIN, 0) + [End] == [End, End];
    assert Write(RESERVED_AGAIN, 0, End).slots == WRITTEN_AGAIN.slots;
    StepTo(RESERVED_AGAIN, Move(1), WRITTEN_AGAIN);
    WinMoveIs(NEITHER, WRITTEN_AGAIN, 1);
    StepTo(WRITTEN_AGAIN, Move(1), RESET_AGAIN);
  }

  /** A second winner can write another END after the reset, into the slot that the next command would use first. */
  lemma SecondEndAfterReset() returns (steps: seq<Step>, more: seq<Step>)
    ensures Legal(NEITHER, Init(NEITHER), steps) && After(NEITHER, Init(NEITHER), steps) == RESET
    ensures Legal(NEITHER, RESET, more)
    ensures var t := After(NEITHER, RESET, more);
      RESET.indexReset && Finished(t) && Slot(t, 0) == [End, End] && !Untouched(RESET, t)
  {
    hide Legal, After;
    steps := BothComplete();
    FirstEnds();
    RunOn(NEITHER, Init(NEITHER), steps, [Move(0)]);
    steps := steps + [Move(0)];
    RunOn(NEITHER, Init(NEITHER), steps, [Move(0)]);
    steps := steps + [Move(0)];
    RunOn(NEITHER, Init(NEITHER), steps, [Move(0)]);
    steps := steps + [Move(0)];
    SecondReserves();
    SecondEnds();
    more := [Move(1)];
    RunOn(NEITHER, RESET, more, [Move(1)]);
    more := more + [Move(1)];
    RunOn(NEITHER, RESET, more, [Move(1)]);
    more := more + [Move(1)];
    RunOn(NEITHER, RESET, more, [Move(1)]);
    more := more + [Move(1)];
  }
}
