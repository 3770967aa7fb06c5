/**
 The reply buffer while several workers reply to one get at a time: each reserves two slots
 with a fetch-and-add, fills them, adds their size to totalsize, looks at windexlast and, if
 its backlog is large, flushes. A flush takes the writing flag, which keeps other flushes out
 but not other workers' writes; sends what the slots hold; reads their lengths again, one by
 one, to find the slot where the send stopped; moves windexlast; releases the flag; and only
 then takes its count off totalsize. Every interleaving of these steps is a run.
 */
module Backlog {
  import opened Bytes
  import opened Reply

  /** A byte of a reply and where it was written, which tells it from every other. */
  datatype Mark = Mark(b: byte, slot: nat, at: nat)

  function Marked(item: seq<byte>, slot: nat): (m: seq<Mark>)
    ensures |m| == |item| && forall i :: 0 <= i < |m| ==> m[i] == Mark(item[i], slot, i)
  {
    seq(|item|, i requires 0 <= i < |item| => Mark(item[i], slot, i))
  }

  /** What the client sees of marked bytes. */
  function Seen(m: seq<Mark>): (s: seq<byte>)
    ensures |s| == |m| && forall i :: 0 <= i < |s| ==> s[i] == m[i].b
  {
    seq(|m|, i requires 0 <= i < |m| => m[i].b)
  }

  lemma SeenOfMarked(item: seq<byte>, slot: nat)
    ensures Seen(Marked(item, slot)) == item
  {
  }

  type Slots = seq<seq<Mark>>

  /**
   A worker's way through QReply: index is its first slot, total what its addition to
   totalsize returned, start the windexlast that it saw. taken is what sendmsg returned.
   */
  datatype Pc =
    | Outside
    | Reserved(index: nat)
    | LineIn(index: nat)
    | ValueIn(index: nat)
    | Counted(index: nat, total: nat)
    | Looked(index: nat, total: nat, start: nat)
    | Flushing
    | Released(taken: nat)
    | Done

  /**
   The writing flag and the flush that holds it. While the lengths are read again, offered is
   what the slots held when they were sent, and read what the check has found so far; it stops
   within so many bytes into the last slot of read.
   */
  datatype Flush =
    | Free
    | Held(w: nat, start: nat, count: nat)
    | Reading(w: nat, start: nat, taken: nat, offered: Slots, read: Slots)
    | Found(w: nat, start: nat, taken: nat, offered: Slots, read: Slots, within: nat)
    | Moved(w: nat, taken: nat)

  /**
   slots holds what is left to send of each slot. The last five fields record the past: how
   much of the slot at windexlast has been counted as sent; what was written to each slot; the
   slots that a check found empty and windexlast has passed; the slots that were empty when
   they were sent and full when the check counted them.
   */
  datatype State = State(
    slots: Slots,
    windexlast: nat,
    totalsize: nat,
    wire: seq<Mark>,
    pcs: seq<Pc>,
    flush: Flush,
    off: nat,
    written: seq<Option<seq<Mark>>>,
    skipped: set<nat>,
    miscounted: set<nat>)

  /** taken is how much sendmsg takes of what a flush offers it; 0 if it fails. */
  datatype Step = Move(w: nat) | Send(w: nat, taken: nat)

  /** The two parts of each worker's reply, neither of them empty. */
  type Replies = seq<(seq<byte>, seq<byte>)>

  predicate NonEmpty(replies: Replies) {
    forall w :: 0 <= w < |replies| ==> replies[w].0 != [] && replies[w].1 != []
  }

  function Init(replies: Replies): State {
    State([], 0, 0, [], seq(|replies|, _ => Outside), Free, 0, [], {}, {})
  }

  /** How many slots a flush offers, up to the worker's own first; none if others have flushed past it. */
  function Count(index: nat, start: nat): nat {
    if index + 1 < start then 0 else Min(index + 1 - start, IOV_MAX)
  }

  /** The difference of two unsigned numbers is large if the second is the larger. */
  predicate FlushDue(index: nat, total: nat, start: nat) {
    total > FLUSH_SIZE || index + 1 < start || index + 1 - start > FLUSH_SLOTS
  }

  /** So a flush is due as the code has it: by the size, or by the unsigned difference of the indices. */
  lemma DueAsUnsigned(index: nat, total: nat, start: nat)
    requires index + 1 < INT32_LIMIT && start < INT32_LIMIT
    ensures FlushDue(index, total, start) <==> total > 126 * 1024 || (index + 1 - start) % UINT32_RANGE > 1024
  {
    if index + 1 < start {
      DivisionIsUnique(index + 1 - start + UINT32_RANGE, UINT32_RANGE, 0, index + 1 - start + UINT32_RANGE);
    }
  }

  /** The slot where the send stopped is there, and holds as much as the check has found in it. */
  predicate CanSettle(s: State) {
    && s.flush.Found? && s.flush.read != [] && s.flush.start + |s.flush.read| <= |s.slots|
    && s.flush.within <= |s.slots[s.flush.start + |s.flush.read| - 1]|
  }

  predicate FlushEnabled(s: State, step: Step)
    requires !s.flush.Free?
  {
    match s.flush
    case Held(_, start, count) =>
      step.Send? && start + count <= |s.slots| && step.taken <= |Cat(s.slots[start..start + count])|
    case Reading(_, start, taken, offered, read) =>
      step.Move? && |read| < |offered| && start + |read| < |s.slots| && |Cat(read)| < taken
    case Found(_, _, _, _, _, _) => step.Move? && CanSettle(s)
    case Moved(_, _) => step.Move?
  }

  predicate Enabled(replies: Replies, s: State, step: Step) {
    && |s.pcs| == |replies| && |s.written| == |s.slots| && step.w < |s.pcs|
    && match s.pcs[step.w]
       case Reserved(index) => step.Move? && index + 1 < |s.slots|
       case LineIn(index) => step.Move? && index + 1 < |s.slots|
       case Flushing => !s.flush.Free? && s.flush.w == step.w && FlushEnabled(s, step)
       case Done => false
       case _ => step.Move?
  }

  function Write(s: State, k: nat, item: seq<byte>): State
    requires k < |s.slots| == |s.written|
  {
    s.(slots := s.slots[k := Marked(item, k)], written := s.written[k := Some(Marked(item, k))])
  }

  /** The slots that the check found empty. */
  function Blank(start: nat, read: Slots): set<nat> {
    set j: nat | j < |read| && read[j] == [] :: start + j
  }

  /** The end of the check: the slot where the send stopped is advanced, and windexlast moved if it is still at start. */
  function Settle(s: State): State
    requires CanSettle(s)
  {
    var Found(w, start, taken, _, read, within) := s.flush;
    var stop := start + |read| - 1;
    var end := if within == |s.slots[stop]| then stop + 1 else stop;
    var u := s.(slots := if end == stop then s.slots[stop := s.slots[stop][within..]] else s.slots, flush := Moved(w, taken));
    if s.windexlast != start then u.(off := if stop == end == s.windexlast then s.off + within else s.off)
    else
      u.(windexlast := end, off := if end > stop then 0 else if |read| == 1 then s.off + within else within,
         skipped := s.skipped + Blank(start, read))
  }

  /** The check reads the length of one more slot. */
  function ReadOne(s: State): State
    requires s.flush.Reading? && |s.flush.read| < |s.flush.offered| && s.flush.start + |s.flush.read| < |s.slots|
    requires |Cat(s.flush.read)| < s.flush.taken
  {
    var Reading(w, start, taken, offered, read) := s.flush;
    var item := s.slots[start + |read|];
    var within := taken - |Cat(read)|;
    s.(flush := if |item| >= within then Found(w, start, taken, offered, read + [item], within)
                else Reading(w, start, taken, offered, read + [item]),
       miscounted := if offered[|read|] == [] && item != [] then s.miscounted + {start + |read|} else s.miscounted)
  }

  /** sendmsg takes the first bytes of what the slots hold now. */
  function SendNow(s: State, taken: nat): State
    requires s.flush.Held? && s.flush.start + s.flush.count <= |s.slots|
    requires taken <= |Cat(s.slots[s.flush.start..s.flush.start + s.flush.count])|
  {
    var Held(w, start, count) := s.flush;
    var offered := s.slots[start..start + count];
    if taken == 0 then s.(flush := Moved(w, 0))
    else s.(wire := s.wire + Cat(offered)[..taken], flush := Reading(w, start, taken, offered, []))
  }

  function Do(replies: Replies, s: State, step: Step): (u: State)
    requires Enabled(replies, s, step)
    ensures |u.pcs| == |s.pcs|
  {
    var w := step.w;
    var (line, value) := replies[w];
    match s.pcs[w]
    case Outside =>
      s.(slots := s.slots + [[], []], written := s.written + [None, None], pcs := s.pcs[w := Reserved(|s.slots|)])
    case Reserved(index) => Write(s, index, line).(pcs := s.pcs[w := LineIn(index)])
    case LineIn(index) => Write(s, index + 1, value).(pcs := s.pcs[w := ValueIn(index)])
    case ValueIn(index) =>
      var total := (s.totalsize + |line| + |value|) % UINT32_RANGE;
      s.(totalsize := total, pcs := s.pcs[w := Counted(index, total)])
    case Counted(index, total) => s.(pcs := s.pcs[w := Looked(index, total, s.windexlast)])
    case Looked(index, total, start) =>
      if FlushDue(index, total, start) && s.flush.Free? then
        s.(pcs := s.pcs[w := Flushing], flush := Held(w, start, Count(index, start)))
      else
        s.(pcs := s.pcs[w := Done])
    case Flushing =>
      (match s.flush
       case Held(_, _, _) => SendNow(s, step.taken)
       case Reading(_, _, _, _, _) => ReadOne(s)
       case Found(_, _, _, _, _, _) => Settle(s)
       case Moved(_, taken) => s.(flush := Free, pcs := s.pcs[w := if taken > 0 then Released(taken) else Done])
       case Free => s)
    case Released(taken) =>
      s.(totalsize := (s.totalsize + UINT32_RANGE - taken % UINT32_RANGE) % UINT32_RANGE, pcs := s.pcs[w := Done])
    case Done => s
  }

  predicate InCheck(s: State) {
    s.flush.Reading? || s.flush.Found?
  }

  /** A flush that starts behind windexlast, finds nothing there, and stops inside the slot at windexlast. */
  predicate Harmless(s: State, taken: nat) {
    && s.flush.Held? && s.flush.start < s.windexlast < s.flush.start + s.flush.count <= |s.slots|
    && (forall k :: s.flush.start <= k < s.windexlast ==> s.slots[k] == [])
    && taken < |s.slots[s.windexlast]|
  }

  /** The slot is behind windexlast, and a check may still count it. */
  predicate Overlooked(s: State, k: nat) {
    InCheck(s) && s.flush.start <= k < s.windexlast
  }

  /** A flush that sends starts at windexlast or is harmless, and nothing is written behind the one while the other checks. */
  predicate Orderly(s: State, step: Step)
    requires step.w < |s.pcs|
  {
    && (step.Send? && step.taken > 0 && s.flush.Held? ==> s.flush.start == s.windexlast || Harmless(s, step.taken))
    && (s.pcs[step.w].Reserved? ==> !Overlooked(s, s.pcs[step.w].index))
    && (s.pcs[step.w].LineIn? ==> !Overlooked(s, s.pcs[step.w].index + 1))
  }

  /** The runs in which every step is orderly. */
  ghost predicate InOrder(replies: Replies, s: State, steps: seq<Step>)
    decreases |steps|
  {
    steps == [] ||
    (Enabled(replies, s, steps[0]) && Orderly(s, steps[0]) && InOrder(replies, Do(replies, s, steps[0]), steps[1..]))
  }

  ghost function After(replies: Replies, s: State, steps: seq<Step>): State
    requires InOrder(replies, s, steps)
    decreases |steps|
  {
    if steps == [] then s else After(replies, Do(replies, s, steps[0]), steps[1..])
  }

  /** All runs. */
  ghost predicate Legal(replies: Replies, s: State, steps: seq<Step>)
    decreases |steps|
  {
    steps == [] || (Enabled(replies, s, steps[0]) && Legal(replies, Do(replies, s, steps[0]), steps[1..]))
  }

  ghost function Reached(replies: Replies, s: State, steps: seq<Step>): State
    requires Legal(replies, s, steps)
    decreases |steps|
  {
    if steps == [] then s else Reached(replies, Do(replies, s, steps[0]), steps[1..])
  }

  // ---------------------------------------------------------------- the workers and their slots

  predicate HoldsSlots(pc: Pc) {
    pc.Reserved? || pc.LineIn? || pc.ValueIn? || pc.Counted? || pc.Looked?
  }

  predicate StillToWrite(pc: Pc, k: nat) {
    (pc.Reserved? && (k == pc.index || k == pc.index + 1)) || (pc.LineIn? && k == pc.index + 1)
  }

  /** A worker's slots are there, and not written before it writes them. */
  predicate OwnInv(s: State, w: nat)
    requires |s.written| == |s.slots| && w < |s.pcs|
  {
    var pc := s.pcs[w];
    && (HoldsSlots(pc) ==> pc.index + 1 < |s.slots|)
    && (pc.Reserved? ==> s.written[pc.index] == None && s.written[pc.index + 1] == None)
    && (pc.LineIn? ==> s.written[pc.index + 1] == None)
    && (pc.Looked? ==> pc.start <= s.windexlast)
    && (pc.Flushing? <==> !s.flush.Free? && s.flush.w == w)
  }

  /** No slot is reserved by two workers. */
  predicate Apart(a: Pc, b: Pc) {
    HoldsSlots(a) && HoldsSlots(b) ==> a.index + 1 < b.index || b.index + 1 < a.index
  }

  /** A slot that is not written is still to be written by someone. */
  ghost predicate Covered(s: State, k: nat) {
    k < |s.written| && s.written[k] == None ==> exists w :: 0 <= w < |s.pcs| && StillToWrite(s.pcs[w], k)
  }

  ghost predicate SlotInv(s: State) {
    && |s.written| == |s.slots|
    && (!s.flush.Free? ==> s.flush.w < |s.pcs|)
    && (forall w :: 0 <= w < |s.pcs| ==> OwnInv(s, w))
    && (forall v, w :: 0 <= v < |s.pcs| && 0 <= w < |s.pcs| && v != w ==> Apart(s.pcs[v], s.pcs[w]))
    && (forall k: nat :: Covered(s, k))
  }

  /** Whoever was to write a slot still is, unless it is the worker that moves. */
  lemma StillCovered(s: State, u: State, w: nat, k: nat)
    requires Covered(s, k) && w < |s.pcs| == |u.pcs| && u.pcs == s.pcs[w := u.pcs[w]]
    requires k < |s.written| && s.written[k] == None
    requires StillToWrite(s.pcs[w], k) ==> StillToWrite(u.pcs[w], k)
    ensures Covered(u, k)
  {
    var v :| 0 <= v < |s.pcs| && StillToWrite(s.pcs[v], k);
    assert StillToWrite(u.pcs[v], k);
  }

  lemma ReserveKeepsSlots(s: State, u: State, w: nat)
    requires SlotInv(s) && w < |s.pcs| == |u.pcs| && s.pcs[w].Outside?
    requires u.slots == s.slots + [[], []] && u.written == s.written + [None, None]
    requires u.pcs == s.pcs[w := Reserved(|s.slots|)] && u.flush == s.flush && u.windexlast == s.windexlast
    ensures SlotInv(u)
  {
    assert OwnInv(s, w);
    forall v | 0 <= v < |u.pcs| ensures OwnInv(u, v) {
      assert OwnInv(s, v);
    }
    forall v, x | 0 <= v < |u.pcs| && 0 <= x < |u.pcs| && v != x ensures Apart(u.pcs[v], u.pcs[x]) {
      assert Apart(s.pcs[v], s.pcs[x]) && OwnInv(s, v) && OwnInv(s, x);
    }
    forall k: nat ensures Covered(u, k) {
      if k < |s.slots| && s.written[k] == None {
        StillCovered(s, u, w, k);
      } else if k < |u.slots| && u.written[k] == None {
        assert StillToWrite(u.pcs[w], k);
      }
    }
  }

  lemma WriteKeepsSlots(s: State, u: State, w: nat, at: nat, item: seq<Mark>)
    requires SlotInv(s) && w < |s.pcs| == |u.pcs| && u.pcs == s.pcs[w := u.pcs[w]]
    requires if s.pcs[w].Reserved? then at == s.pcs[w].index && u.pcs[w] == LineIn(at)
             else s.pcs[w].LineIn? && at == s.pcs[w].index + 1 && u.pcs[w] == ValueIn(at - 1)
    requires at < |s.slots| == |u.slots| && u.written == s.written[at := Some(item)]
    requires u.flush == s.flush && u.windexlast == s.windexlast
    ensures SlotInv(u)
  {
    assert OwnInv(s, w);
    forall v | 0 <= v < |u.pcs| ensures OwnInv(u, v) {
      assert OwnInv(s, v) && (v != w ==> Apart(s.pcs[v], s.pcs[w]));
    }
    forall v, x | 0 <= v < |u.pcs| && 0 <= x < |u.pcs| && v != x ensures Apart(u.pcs[v], u.pcs[x]) {
      assert Apart(s.pcs[v], s.pcs[x]);
    }
    forall k: nat ensures Covered(u, k) {
      if k < |u.slots| && u.written[k] == None {
        StillCovered(s, u, w, k);
      }
    }
  }

  predicate FreeOr(flush: Flush, w: nat) {
    flush.Free? || flush.w == w
  }

  /** The steps after a worker's writes. */
  lemma RestKeepsSlots(s: State, u: State, w: nat)
    requires SlotInv(s) && w < |s.pcs| == |u.pcs| && !s.pcs[w].Outside? && !s.pcs[w].Reserved? && !s.pcs[w].LineIn?
    requires |u.slots| == |s.slots| && u.written == s.written && u.pcs == s.pcs[w := u.pcs[w]] && u.windexlast >= s.windexlast
    requires !u.pcs[w].Reserved? && !u.pcs[w].LineIn?
    requires HoldsSlots(u.pcs[w]) ==> HoldsSlots(s.pcs[w]) && u.pcs[w].index == s.pcs[w].index
    requires u.pcs[w].Looked? ==> u.pcs[w].start <= u.windexlast
    requires u.pcs[w].Flushing? <==> !u.flush.Free? && u.flush.w == w
    requires u.flush == s.flush || (FreeOr(s.flush, w) && FreeOr(u.flush, w))
    ensures SlotInv(u)
  {
    forall v | 0 <= v < |u.pcs| ensures OwnInv(u, v) {
      assert OwnInv(s, v);
    }
    forall v, x | 0 <= v < |u.pcs| && 0 <= x < |u.pcs| && v != x ensures Apart(u.pcs[v], u.pcs[x]) {
      assert Apart(s.pcs[v], s.pcs[x]);
    }
    forall k: nat ensures Covered(u, k) {
      if k < |u.slots| && u.written[k] == None {
        StillCovered(s, u, w, k);
      }
    }
  }

  // ---------------------------------------------------------------- what is sent and what is left

  function Content(item: Option<seq<Mark>>): seq<Mark> {
    if item.Some? then item.value else []
  }

  /** All that has been written, in slot order. */
  function Written(s: State): (all: Slots)
    ensures |all| == |s.written|
  {
    seq(|s.written|, k requires 0 <= k < |s.written| => Content(s.written[k]))
  }

  /** Without the slots that were passed when they were empty. */
  function Kept(s: State): (kept: Slots)
    ensures |kept| == |s.written|
  {
    seq(|s.written|, k requires 0 <= k < |s.written| => if k in s.skipped then [] else Content(s.written[k]))
  }

  /** What is left to send. */
  function Rest(s: State): (rest: Slots)
    requires s.windexlast <= |s.slots|
    ensures |rest| == |s.slots| - s.windexlast
  {
    s.slots[s.windexlast..]
  }

  /** How many bytes have been sent that windexlast does not yet count. */
  function Pending(s: State): nat {
    if InCheck(s) then s.flush.taken else 0
  }

  /** What windexlast counts as sent, by number. */
  ghost predicate AccountInv(s: State) {
    && |s.written| == |s.slots| && s.windexlast <= |s.slots| && Pending(s) <= |s.wire|
    && Advanced(Kept(s), Rest(s), s.windexlast, s.off, |s.wire| - Pending(s))
  }

  /** What has been sent and counted. */
  function Past(s: State): seq<Mark>
    requires Pending(s) <= |s.wire|
  {
    s.wire[..|s.wire| - Pending(s)]
  }

  ghost predicate Starts<T>(a: seq<T>, b: seq<T>) {
    a <= b
  }

  /** And by content, as long as no check has counted what was not sent. */
  ghost predicate PrefixInv(s: State) {
    Pending(s) <= |s.wire| && (s.miscounted == {} ==> Starts(Past(s), Cat(Kept(s))))
  }

  predicate MarkedAt(s: State, k: nat) {
    k < |s.written| && s.written[k].Some? ==>
      s.written[k].value != [] &&
      forall i :: 0 <= i < |s.written[k].value| ==> s.written[k].value[i].slot == k && s.written[k].value[i].at == i
  }

  /** What is behind windexlast and not written was passed; the slot at windexlast has bytes left. */
  ghost predicate EdgeInv(s: State) {
    && |s.written| == |s.slots|
    && (forall k: nat :: MarkedAt(s, k))
    && (forall k :: k in s.skipped ==> k < s.windexlast <= |s.slots|)
    && (forall k :: 0 <= k < s.windexlast && k < |s.slots| && s.written[k] == None ==> k in s.skipped)
    && (s.off > 0 ==> s.windexlast < |s.slots| && s.written[s.windexlast].Some? && s.off < |s.written[s.windexlast].value|)
  }

  /** Slot j of a flush: if it was full when sent it has not changed; if not, none of its bytes have been sent. */
  ghost predicate OfferInv(s: State, start: nat, offered: Slots, j: nat)
    requires |s.written| == |s.slots| && j < |offered| && start + |offered| <= |s.slots|
  {
    if offered[j] != [] then s.slots[start + j] == offered[j]
    else s.written[start + j].Some? ==> forall x :: x in s.wire ==> x.slot != start + j
  }

  /** And what the check has found in it. */
  ghost predicate ReadInv(s: State, start: nat, offered: Slots, read: Slots, j: nat)
    requires j < |read| <= |offered| && start + |offered| <= |s.slots|
  {
    && (read[j] == [] || read[j] == s.slots[start + j])
    && (offered[j] != [] ==> read[j] == offered[j])
    && (offered[j] == [] && read[j] != [] ==> start + j in s.miscounted)
  }

  /** A check that started behind windexlast: there is nothing there still, and the send stopped inside the slot at windexlast. */
  ghost predicate StaleCheck(s: State, start: nat, taken: nat, offered: Slots)
    requires start < s.windexlast && start + |offered| <= |s.slots|
  {
    var ahead := s.windexlast - start;
    && ahead < |offered| && taken < |offered[ahead]|
    && forall j :: 0 <= j < ahead ==> offered[j] == [] && s.slots[start + j] == []
  }

  ghost predicate CheckInv(s: State, start: nat, taken: nat, offered: Slots, read: Slots) {
    && |s.written| == |s.slots| && start <= s.windexlast && start + |offered| <= |s.slots| && |read| <= |offered|
    && (start < s.windexlast ==> StaleCheck(s, start, taken, offered))
    && 0 < taken <= |Cat(offered)| && taken <= |s.wire| && s.wire[|s.wire| - taken..] == Cat(offered)[..taken]
    && (start == s.windexlast && s.off > 0 && offered != [] ==> offered[0] != [])
    && (forall j :: 0 <= j < |offered| && s.windexlast <= start + j ==> OfferInv(s, start, offered, j))
    && (forall j :: 0 <= j < |read| ==> ReadInv(s, start, offered, read, j))
  }

  ghost predicate FlushInv(s: State) {
    match s.flush
    case Held(_, start, count) => start <= s.windexlast && start + count <= |s.slots|
    case Reading(_, start, taken, offered, read) => CheckInv(s, start, taken, offered, read) && |Cat(read)| < taken
    case Found(_, start, taken, offered, read, within) =>
      && CheckInv(s, start, taken, offered, read) && read != []
      && taken == |Cat(read[..|read| - 1])| + within && 0 < within <= |read[|read| - 1]|
    case _ => true
  }

  /** The first byte of a slot that was counted without having been sent is not sent, and not left to be. */
  ghost predicate LostInv(s: State) {
    forall k :: k in s.miscounted ==>
      && k < |s.slots| == |s.written| && s.written[k].Some?
      && (forall x :: x in s.wire ==> !(x.slot == k && x.at == 0))
      && (k < s.windexlast || (k == s.windexlast && s.off > 0) ||
          (InCheck(s) && s.flush.start <= k < s.flush.start + |s.flush.read|))
  }

  ghost predicate WireInv(s: State) {
    |s.written| == |s.slots| && forall x :: x in s.wire ==> x.slot < |s.written| && s.written[x.slot].Some?
  }

  ghost predicate BufferInv(s: State) {
    AccountInv(s) && PrefixInv(s) && EdgeInv(s) && FlushInv(s) && LostInv(s) && WireInv(s)
  }

  ghost predicate Inv(s: State) {
    SlotInv(s) && BufferInv(s)
  }

  // ---------------------------------------------------------------- slots ahead of windexlast

  /** Ahead of windexlast a slot is empty exactly if it is not written, and holds its own bytes. */
  lemma Ahead(s: State, k: nat)
    requires AccountInv(s) && EdgeInv(s) && s.windexlast <= k < |s.slots|
    ensures s.slots[k] == [] <==> s.written[k] == None
    ensures k !in s.skipped
    ensures forall x :: x in s.slots[k] ==> x.slot == k && (k == s.windexlast ==> x.at >= s.off)
  {
    hide Cat;
    assert s.slots[k] == Rest(s)[k - s.windexlast];
    assert MarkedAt(s, k);
    assert Kept(s)[k] == Content(s.written[k]);
  }

  lemma {:induction false} InCat<T>(slots: seq<seq<T>>, x: T)
    ensures x in Cat(slots) <==> exists k :: 0 <= k < |slots| && x in slots[k]
  {
    if slots != [] {
      InCat(slots[1..], x);
      if x in slots[0] {
      } else if x in Cat(slots[1..]) {
        var k :| 0 <= k < |slots[1..]| && x in slots[1..][k];
        assert x in slots[k + 1];
      } else {
        forall k | 0 <= k < |slots| ensures x !in slots[k] {
          assert k > 0 ==> slots[k] == slots[1..][k - 1];
        }
      }
    }
  }

  /** Behind empty slots only, the first bytes are those of the first slot that has so many. */
  lemma {:induction false} FirstFull<T>(slots: seq<seq<T>>, d: nat, n: nat)
    requires d < |slots| && (forall j :: 0 <= j < d ==> slots[j] == []) && n <= |slots[d]|
    ensures n <= |Cat(slots)| && Cat(slots)[..n] == slots[d][..n] && Cat(slots[..d]) == []
  {
    if d == 0 {
      TakenFromFirst(slots[0], Cat(slots[1..]), n);
    } else {
      FirstFull(slots[1..], d - 1, n);
      assert slots[..d] == [slots[0]] + slots[1..][..d - 1];
      CatCons(slots[0], slots[1..][..d - 1]);
    }
  }

  lemma PrefixForm<T>(slots: seq<seq<T>>, rest: seq<seq<T>>, f: nat, off: nat, sent: nat)
    requires Advanced(slots, rest, f, off, sent)
    ensures sent <= |Cat(slots)|
    ensures Cat(slots)[..sent] == Cat(slots[..f]) + if f < |slots| then slots[f][..off] else []
  {
    hide Cat;
    AdvancedRest(slots, rest, f, off, sent);
    CatSplit(slots, 0, f, |slots|);
    assert slots[0..|slots|] == slots && slots[0..f] == slots[..f];
    if f < |slots| {
      CatSplit(slots, f, f, |slots|);
      TakenFromFirst(slots[f], Cat(slots[f + 1..|slots|]), off);
    } else {
      assert slots[..f] == slots;
    }
  }
}
