/**
 The reply buffer over all runs, those too in which a flush sends from behind windexlast or a
 slot is written behind a check: what such a step breaks is never made good.
 */
module AllFlushes {
  import opened Bytes
  import opened Reply
  import opened Backlog
  import opened BacklogSends
  import opened BacklogChecks
  import opened BacklogRuns

  /** Whoever may race, workers keep to their slots. */
  lemma SlotStepKeeps(replies: Replies, s: State, step: Step)
    requires SlotInv(s) && Enabled(replies, s, step)
    ensures SlotInv(Do(replies, s, step))
  {
    var u, w := Do(replies, s, step), step.w;
    assert OwnInv(s, w);
    match s.pcs[w]
    case Outside => ReserveKeepsSlots(s, u, w);
    case Reserved(index) => WriteKeepsSlots(s, u, w, index, Marked(replies[w].0, index));
    case LineIn(index) => WriteKeepsSlots(s, u, w, index + 1, Marked(replies[w].1, index + 1));
    case Flushing => FlushStepFrame(replies, s, step); hide Do; RestKeepsSlots(s, u, w);
    case _ => RestKeepsSlots(s, u, w);
  }

  /** Every slot holds bytes that were written to it. */
  ghost predicate HoldsOwn(s: State, k: nat) {
    k < |s.slots| == |s.written| ==> forall x :: x in s.slots[k] ==> s.written[k].Some? && x in s.written[k].value
  }

  ghost predicate OwnBytes(s: State) {
    |s.written| == |s.slots| && s.windexlast <= |s.slots| && forall k: nat :: HoldsOwn(s, k) && MarkedAt(s, k)
  }

  lemma FlushKeepsOwn(s: State, u: State, stop: nat, within: nat)
    requires OwnBytes(s) && u.written == s.written && u.windexlast <= |s.slots|
    requires u.slots == s.slots || (stop < |s.slots| && within <= |s.slots[stop]| && u.slots == s.slots[stop := s.slots[stop][within..]])
    ensures OwnBytes(u)
  {
    forall k: nat ensures HoldsOwn(u, k) && MarkedAt(u, k) {
      assert HoldsOwn(s, k) && MarkedAt(s, k);
      assert k < |u.slots| ==> forall x :: x in u.slots[k] ==> x in s.slots[k];
    }
  }

  lemma WriteKeepsOwn(s: State, u: State, k: nat, item: seq<byte>)
    requires OwnBytes(s) && k < |s.slots| && item != [] && u == Write(s, k, item).(pcs := u.pcs)
    ensures OwnBytes(u)
  {
    forall l: nat ensures HoldsOwn(u, l) && MarkedAt(u, l) {
      assert HoldsOwn(s, l) && MarkedAt(s, l);
    }
  }

  lemma ReserveKeepsOwn(s: State, u: State)
    requires OwnBytes(s) && u == s.(slots := s.slots + [[], []], written := s.written + [None, None], pcs := u.pcs)
    ensures OwnBytes(u)
  {
    forall l: nat ensures HoldsOwn(u, l) && MarkedAt(u, l) {
      assert HoldsOwn(s, l) && MarkedAt(s, l);
    }
  }

  lemma FlushStepKeepsOwn(replies: Replies, s: State, step: Step)
    requires OwnBytes(s) && Enabled(replies, s, step) && s.pcs[step.w].Flushing?
    ensures OwnBytes(Do(replies, s, step))
  {
    var u := Do(replies, s, step);
    hide Cat, OwnBytes, Blank;
    if s.flush.Found? {
      FlushKeepsOwn(s, u, s.flush.start + |s.flush.read| - 1, s.flush.within);
    } else {
      FlushKeepsOwn(s, u, 0, 0);
    }
  }

  lemma OwnStepKeeps(replies: Replies, s: State, step: Step)
    requires NonEmpty(replies) && OwnBytes(s) && Enabled(replies, s, step)
    ensures OwnBytes(Do(replies, s, step))
  {
    var u, w := Do(replies, s, step), step.w;
    var pc := s.pcs[w];
    if pc.Flushing? {
      FlushStepKeepsOwn(replies, s, step);
    } else {
      hide Cat, OwnBytes, SendNow, ReadOne, Settle, FlushEnabled;
      if pc.Outside? { ReserveKeepsOwn(s, u); }
      else if pc.Reserved? { WriteKeepsOwn(s, u, pc.index, replies[w].0); }
      else if pc.LineIn? { WriteKeepsOwn(s, u, pc.index + 1, replies[w].1); }
      else { FlushKeepsOwn(s, u, 0, 0); }
    }
  }

  /** A byte of a slot behind the k-th has been sent. */
  ghost predicate SentBehind(s: State, k: nat) {
    exists z :: z in s.wire && z.slot > k
  }

  /** What was passed empty, or counted and not sent, was so because a slot behind it was sent. */
  ghost predicate LaterInv(s: State) {
    forall k :: k in s.skipped + s.miscounted ==> SentBehind(s, k)
  }

  lemma StillBehind(s: State, u: State, k: nat)
    requires SentBehind(s, k) && s.wire <= u.wire
    ensures SentBehind(u, k)
  {
    var z :| z in s.wire && z.slot > k;
    assert z in u.wire;
  }

  lemma LaterStays(s: State, u: State)
    requires LaterInv(s) && s.wire <= u.wire && u.skipped + u.miscounted <= s.skipped + s.miscounted
    ensures LaterInv(u)
  {
    forall k | k in u.skipped + u.miscounted ensures SentBehind(u, k) {
      StillBehind(s, u, k);
    }
  }

  /** Of slots that hold too little up to the j-th, the first byte after it is in one behind it. */
  lemma InLaterSlot<T>(offered: seq<seq<T>>, j: nat, n: nat) returns (l: nat, x: T)
    requires j < |offered| && |Cat(offered[..j + 1])| < n <= |Cat(offered)|
    ensures j < l < |offered| && x in offered[l] && x in Cat(offered)[..n]
  {
    hide Cat;
    var first, rest := offered[..j + 1], offered[j + 1..];
    assert offered == first + rest;
    CatAppend(first, rest);
    x := Cat(rest)[0];
    assert Cat(offered)[..n][|Cat(first)|] == x;
    InCat(rest, x);
    var i :| 0 <= i < |rest| && x in rest[i];
    l := j + 1 + i;
  }

  lemma OfferedIsLess(s: State, start: nat, taken: nat, offered: Slots, read: Slots, j: nat)
    requires CheckInv(s, start, taken, offered, read) && j <= |read|
    ensures |Cat(offered[..j])| <= |Cat(read[..j])|
  {
    hide Cat, OfferInv;
    forall i | 0 <= i < j ensures offered[..j][i] == read[..j][i] || offered[..j][i] == [] {
      assert ReadInv(s, start, offered, read, i);
    }
    LessIsLonger(offered[..j], read[..j]);
  }

  /** A slot that was empty when sent, short of where the send stopped: something behind it was sent. */
  lemma SentBeyond(s: State, start: nat, taken: nat, offered: Slots, read: Slots, j: nat)
    requires CheckInv(s, start, taken, offered, read) && OwnBytes(s)
    requires j <= |read| && j < |offered| && offered[j] == [] && |Cat(read[..j])| < taken
    ensures SentBehind(s, start + j)
  {
    OfferedIsLess(s, start, taken, offered, read, j);
    EndsAtSlot(offered, j);
    hide Cat;
    var l, x := InLaterSlot(offered, j, taken);
    assert OfferInv(s, start, offered, l) && HoldsOwn(s, start + l) && MarkedAt(s, start + l);
    assert x in s.wire[|s.wire| - taken..];
  }

  lemma ReadKeepsLater(s: State)
    requires BufferInv(s) && OwnBytes(s) && LaterInv(s) && s.flush.Reading? && |s.flush.read| < |s.flush.offered|
    ensures LaterInv(ReadOne(s))
  {
    ReadFrame(s);
    var u, read, offered := ReadOne(s), s.flush.read, s.flush.offered;
    assert read[..|read|] == read;
    if offered[|read|] == [] {
      SentBeyond(s, s.flush.start, s.flush.taken, offered, read, |read|);
    }
    hide Cat, BufferInv, OwnBytes, ReadOne, SentBehind;
    forall k | k in u.skipped + u.miscounted ensures SentBehind(u, k) {
      if k in s.skipped + s.miscounted {
        StillBehind(s, u, k);
      } else {
        StillBehind(s, u, s.flush.start + |read|);
      }
    }
  }

  lemma BlankIsBefore(s: State, k: nat)
    requires BufferInv(s) && OwnBytes(s) && s.flush.Found?
    requires s.flush.start == s.windexlast && k in Blank(s.windexlast, s.flush.read)
    ensures SentBehind(s, k)
  {
    BlankIsBehind(s, k);
    var read, j := s.flush.read, k - s.windexlast;
    assert ReadInv(s, s.windexlast, s.flush.offered, read, j);
    assert read[..|read| - 1] == read[..j] + read[j..|read| - 1];
    CatAppend(read[..j], read[j..|read| - 1]);
    assert |Cat(read[..|read| - 1])| < s.flush.taken;
    SentBeyond(s, s.windexlast, s.flush.taken, s.flush.offered, read, j);
  }

  lemma SettleKeepsLater(s: State)
    requires BufferInv(s) && OwnBytes(s) && LaterInv(s) && s.flush.Found?
    ensures CanSettle(s) && LaterInv(Settle(s))
  {
    SettleEnabled(s);
    SettleFrame(s);
    if s.flush.start < s.windexlast {
      StaleSettleIs(s);
      LaterStays(s, Settle(s));
      return;
    }
    SkippedAfterSettle(s);
    hide Cat, Settle, CanSettle, Blank, SentBehind;
    var u := Settle(s);
    forall k | k in u.skipped + u.miscounted ensures SentBehind(u, k) {
      if k in Blank(s.windexlast, s.flush.read) {
        BlankIsBefore(s, k);
      }
      StillBehind(s, u, k);
    }
  }

  lemma OthersPassNone(replies: Replies, s: State, step: Step)
    requires Enabled(replies, s, step) && !(s.pcs[step.w].Flushing? && InCheck(s))
    ensures var u := Do(replies, s, step); u.skipped == s.skipped && u.miscounted == s.miscounted
  {
    hide Cat, Settle, ReadOne, Marked;
  }

  lemma LaterStepKeeps(replies: Replies, s: State, step: Step)
    requires BufferInv(s) && OwnBytes(s) && LaterInv(s) && Enabled(replies, s, step)
    ensures LaterInv(Do(replies, s, step))
  {
    if s.pcs[step.w].Flushing? && s.flush.Reading? {
      ReadKeepsLater(s);
    } else if s.pcs[step.w].Flushing? && s.flush.Found? {
      SettleKeepsLater(s);
    } else {
      WireGrows(replies, s, step);
      OthersPassNone(replies, s, step);
      hide BufferInv, OwnBytes, LaterInv, Do;
      LaterStays(s, Do(replies, s, step));
    }
  }

  // ---------------------------------------------------------------- what is behind a stale start

  /** Between a start that windexlast has left and windexlast there is a full slot, or part of the next one is sent. */
  ghost predicate Left(s: State, start: nat) {
    s.off > 0 || exists k :: start <= k < s.windexlast && k < |s.slots| && s.slots[k] != []
  }

  ghost predicate LeftBy(s: State, v: nat)
    requires v < |s.pcs|
  {
    s.pcs[v].Looked? && s.pcs[v].start < s.windexlast ==> Left(s, s.pcs[v].start)
  }

  ghost predicate LeftInv(s: State) {
    && (forall v :: 0 <= v < |s.pcs| ==> LeftBy(s, v))
    && (s.flush.Held? && s.flush.start < s.windexlast ==> Left(s, s.flush.start))
  }

  lemma StillLeft(s: State, u: State, start: nat)
    requires Left(s, start) && u.windexlast == s.windexlast && (s.off > 0 ==> u.off > 0) && |s.slots| <= |u.slots|
    requires forall k :: 0 <= k < |s.slots| && s.slots[k] != [] ==> u.slots[k] != []
    ensures Left(u, start)
  {
    if s.off == 0 {
      var k :| start <= k < s.windexlast && k < |s.slots| && s.slots[k] != [];
      assert u.slots[k] != [];
    }
  }

  /** Every step but the one that moves windexlast. */
  lemma LeftStays(s: State, u: State, w: nat)
    requires LeftInv(s) && w < |s.pcs| == |u.pcs| && u.pcs == s.pcs[w := u.pcs[w]]
    requires u.windexlast == s.windexlast && (s.off > 0 ==> u.off > 0) && |s.slots| <= |u.slots|
    requires forall k :: 0 <= k < |s.slots| && s.slots[k] != [] ==> u.slots[k] != []
    requires u.pcs[w].Looked? ==> u.pcs[w].start == s.windexlast
    requires u.flush.Held? ==> u.flush == s.flush || (s.pcs[w].Looked? && u.flush.start == s.pcs[w].start)
    ensures LeftInv(u)
  {
    assert LeftBy(s, w);
    hide Left;
    forall v | 0 <= v < |u.pcs| ensures LeftBy(u, v) {
      assert LeftBy(s, v);
      if v != w && s.pcs[v].Looked? && s.pcs[v].start < s.windexlast {
        StillLeft(s, u, s.pcs[v].start);
      }
    }
    if u.flush.Held? && u.flush.start < u.windexlast {
      StillLeft(s, u, u.flush.start);
    }
  }

  /** Wherever windexlast goes, it leaves a full slot behind or stops inside one. */
  lemma SettleLeaves(s: State, start: nat)
    requires AccountInv(s) && EdgeInv(s) && FlushInv(s) && s.flush.Found?
    requires s.flush.start == s.windexlast && start <= s.windexlast
    ensures CanSettle(s) && Left(Settle(s), start)
  {
    SettledAt(s);
    SettleFrame(s);
    hide AccountInv, EdgeInv, FlushInv;
    var u, stop := Settle(s), s.windexlast + |s.flush.read| - 1;
    if u.windexlast == stop + 1 {
      assert u.slots[stop] != [];
    }
  }

  lemma SettleKeepsLeft(replies: Replies, s: State, step: Step)
    requires Inv(s) && LeftInv(s) && Enabled(replies, s, step) && s.pcs[step.w].Flushing? && s.flush.Found?
    ensures LeftInv(Do(replies, s, step))
  {
    var u := Do(replies, s, step);
    SettleEnabled(s);
    if s.flush.start < s.windexlast {
      StaleSettleIs(s);
      assert forall k :: 0 <= k < |s.slots| && s.slots[k] != [] ==> u.slots[k] != [];
      LeftStays(s, u, step.w);
    } else {
      hide BufferInv, Left, FlushInv, Settle;
      assert BufferInv(s) by { hide SlotInv; }
      forall v | 0 <= v < |u.pcs| ensures LeftBy(u, v) {
        assert OwnInv(s, v);
        if u.pcs[v].Looked? {
          SettleLeavesAll(s, u.pcs[v].start);
        }
      }
      SettleFrame(s);
    }
  }

  lemma SettleLeavesAll(s: State, start: nat)
    requires BufferInv(s) && s.flush.Found? && s.flush.start == s.windexlast && start <= s.windexlast
    ensures CanSettle(s) && Left(Settle(s), start)
  {
    SettleLeaves(s, start);
  }

  lemma LeftStepKeeps(replies: Replies, s: State, step: Step)
    requires NonEmpty(replies) && Inv(s) && LeftInv(s) && Enabled(replies, s, step)
    ensures LeftInv(Do(replies, s, step))
  {
    if s.pcs[step.w].Flushing? && s.flush.Found? {
      SettleKeepsLeft(replies, s, step);
    } else {
      assert OwnInv(s, step.w);
      OtherKeepsLeft(replies, s, step);
    }
  }

  lemma OtherKeepsLeft(replies: Replies, s: State, step: Step)
    requires NonEmpty(replies) && LeftInv(s) && Enabled(replies, s, step) && OwnInv(s, step.w)
    requires !(s.pcs[step.w].Flushing? && s.flush.Found?)
    ensures LeftInv(Do(replies, s, step))
  {
    var u := Do(replies, s, step);
    assert u.windexlast == s.windexlast && u.off == s.off by { hide Cat, Settle, LeftInv; }
    assert |s.slots| <= |u.slots| && forall k :: 0 <= k < |s.slots| && s.slots[k] != [] ==> u.slots[k] != [] by {
      hide Cat, Settle, LeftInv;
    }
    hide LeftInv, Settle, Cat;
    LeftStays(s, u, step.w);
  }

  /** What an orderly run keeps besides. */
  ghost predicate PastInv(s: State) {
    Inv(s) && OwnBytes(s) && LaterInv(s) && LeftInv(s)
  }

  lemma PastStepKeeps(replies: Replies, s: State, step: Step)
    requires NonEmpty(replies) && PastInv(s) && Enabled(replies, s, step) && Orderly(s, step)
    ensures PastInv(Do(replies, s, step))
  {
    StepKeeps(replies, s, step);
    OwnStepKeeps(replies, s, step);
    LaterStepKeeps(replies, s, step);
    LeftStepKeeps(replies, s, step);
    hide Inv, OwnBytes, LaterInv, LeftInv, Do;
  }

  lemma PastInit(replies: Replies)
    ensures PastInv(Init(replies))
  {
    InitInv(replies);
  }

  /** The order of the bytes of the replies. */
  predicate Less(x: Mark, y: Mark) {
    x.slot < y.slot || (x.slot == y.slot && x.at < y.at)
  }

  ghost predicate Sorted(m: seq<Mark>) {
    forall i, j :: 0 <= i < j < |m| ==> Less(m[i], m[j])
  }

  lemma {:induction false} CatSorted(all: Slots, base: nat)
    requires forall k, i :: 0 <= k < |all| && 0 <= i < |all[k]| ==> all[k][i].slot == base + k && all[k][i].at == i
    ensures forall x :: x in Cat(all) ==> x.slot >= base
    ensures Sorted(Cat(all))
  {
    if all != [] {
      CatSorted(all[1..], base + 1);
      var rest := Cat(all[1..]);
      assert Cat(all) == all[0] + rest;
      hide Cat;
      forall i, j | 0 <= i < j < |all[0] + rest| ensures Less((all[0] + rest)[i], (all[0] + rest)[j]) {
        assert j >= |all[0]| ==> (all[0] + rest)[j] == rest[j - |all[0]|] && rest[j - |all[0]|] in rest;
        assert i >= |all[0]| ==> (all[0] + rest)[i] == rest[i - |all[0]|];
      }
    }
  }

  predicate HasWritten(s: State, x: Mark) {
    x.slot < |s.written| && s.written[x.slot].Some? && x in s.written[x.slot].value
  }

  /** Bytes have been sent out of order, or twice, or one ahead of another that was written and is not sent. */
  ghost predicate Scrambled(s: State) {
    || !Sorted(s.wire)
    || (exists x, z :: HasWritten(s, x) && x !in s.wire && z in s.wire && Less(x, z))
  }

  /** That cannot be undone. */
  lemma StaysScrambled(s: State, u: State)
    requires Scrambled(s) && s.wire <= u.wire && forall x :: HasWritten(s, x) ==> HasWritten(u, x)
    ensures Scrambled(u)
  {
    if i, j :| 0 <= i < j < |s.wire| && !Less(s.wire[i], s.wire[j]) {
      assert u.wire[i] == s.wire[i] && u.wire[j] == s.wire[j];
    } else {
      var x, z :| HasWritten(s, x) && x !in s.wire && z in s.wire && Less(x, z);
      var i :| 0 <= i < |s.wire| && s.wire[i] == z;
      assert u.wire[i] == z;
      if x in u.wire {
        var j :| 0 <= j < |u.wire| && u.wire[j] == x;
        assert i < j && !Less(z, x);
      }
    }
  }

  lemma NotAhead(all: seq<Mark>, sent: seq<Mark>, x: Mark, z: Mark)
    requires Sorted(all) && sent <= all && x in all && x !in sent && z in sent
    ensures !Less(x, z)
  {
    var i :| 0 <= i < |all| && all[i] == x;
    var j :| 0 <= j < |sent| && sent[j] == z;
    assert all[j] == z && j < i;
  }

  lemma WrittenSorted(s: State)
    requires OwnBytes(s)
    ensures Sorted(Cat(Written(s)))
    ensures forall x :: HasWritten(s, x) ==> x in Cat(Written(s))
  {
    var all: Slots := Written(s);
    forall k: nat, i: nat | k < |all| && i < |all[k]| ensures all[k][i].slot == 0 + k && all[k][i].at == i {
      assert MarkedAt(s, k);
    }
    CatSorted(all, 0);
    hide Cat;
    forall x | HasWritten(s, x) ensures x in Cat(all) {
      assert x in all[x.slot];
      InCat(all, x);
    }
  }

  lemma ScrambledIsLost(s: State)
    requires OwnBytes(s) && Scrambled(s)
    ensures !Conserved(s)
  {
    WrittenSorted(s);
    hide Cat, OwnBytes, HasWritten, Written, Rest, Less;
    var all := Cat(Written(s));
    if s.wire <= all {
      forall x, z | HasWritten(s, x) && x !in s.wire && z in s.wire ensures !Less(x, z) {
        NotAhead(all, s.wire, x, z);
      }
      assert forall i :: 0 <= i < |s.wire| ==> s.wire[i] == all[i];
    }
  }

  /** A slot is written once. */
  lemma WrittenStays(replies: Replies, s: State, step: Step, x: Mark)
    requires SlotInv(s) && Enabled(replies, s, step) && HasWritten(s, x)
    ensures HasWritten(Do(replies, s, step), x)
  {
    assert OwnInv(s, step.w);
    hide Cat, SlotInv, Marked;
  }

  lemma WireGrows(replies: Replies, s: State, step: Step)
    requires Enabled(replies, s, step)
    ensures s.wire <= Do(replies, s, step).wire
  {
    hide Cat, Blank;
  }

  /** What every run keeps. */
  ghost predicate AnyInv(s: State) {
    SlotInv(s) && OwnBytes(s) && WireInv(s) && (s.flush.Held? ==> s.flush.start <= s.windexlast)
  }

  lemma WireStepKeeps(replies: Replies, s: State, step: Step)
    requires NonEmpty(replies) && AnyInv(s) && Enabled(replies, s, step)
    ensures WireInv(Do(replies, s, step))
  {
    var u := Do(replies, s, step);
    SlotStepKeeps(replies, s, step);
    if step.Send? && s.pcs[step.w].Flushing? && step.taken > 0 {
      var offered := s.slots[s.flush.start..s.flush.start + s.flush.count];
      hide Cat;
      forall x | x in Cat(offered)[..step.taken] ensures x.slot < |s.written| && s.written[x.slot].Some? {
        OfferedIsWritten(s, s.flush.start, offered, x);
      }
      assert u.wire == s.wire + Cat(offered)[..step.taken] && u.written == s.written;
    } else {
      assert u.wire == s.wire && |s.written| <= |u.written| && forall k :: 0 <= k < |s.written| && s.written[k].Some? ==> u.written[k].Some? by {
        hide Cat, SlotInv, OwnBytes, WireInv;
      }
    }
  }

  lemma AnyStepKeeps(replies: Replies, s: State, step: Step)
    requires NonEmpty(replies) && AnyInv(s) && Enabled(replies, s, step)
    ensures AnyInv(Do(replies, s, step))
  {
    SlotStepKeeps(replies, s, step);
    OwnStepKeeps(replies, s, step);
    WireStepKeeps(replies, s, step);
    assert OwnInv(s, step.w);
    hide SlotInv, OwnBytes, WireInv, Cat, Blank;
  }

  /** A byte of a slot. */
  lemma OfferedIsWritten(s: State, start: nat, offered: Slots, y: Mark)
    requires OwnBytes(s) && start + |offered| <= |s.slots| && offered == s.slots[start..start + |offered|] && y in Cat(offered)
    ensures HasWritten(s, y)
  {
    InCat(offered, y);
    hide Cat;
    var j :| 0 <= j < |offered| && y in offered[j];
    assert HoldsOwn(s, start + j) && MarkedAt(s, start + j);
  }

  /** What was counted but not sent is out of order for good. */
  lemma MiscountScrambles(s: State, k: nat)
    requires PastInv(s) && k in s.miscounted
    ensures Scrambled(s)
  {
    assert MarkedAt(s, k);
    var x := s.written[k].value[0];
    assert x.slot == k && x.at == 0 && HasWritten(s, x) && x !in s.wire;
    assert SentBehind(s, k);
    var z :| z in s.wire && z.slot > k;
    assert Less(x, z);
  }

  /** A byte behind windexlast has been sent, or one behind it has. */
  lemma BehindIsSent(s: State, y: Mark) returns (i: nat)
    requires PastInv(s) && s.miscounted == {} && !InCheck(s) && y.slot < s.windexlast && HasWritten(s, y)
    ensures i < |s.wire| && !Less(s.wire[i], y)
  {
    if y.slot in s.skipped {
      assert SentBehind(s, y.slot);
      var z :| z in s.wire && z.slot > y.slot;
      i :| 0 <= i < |s.wire| && s.wire[i] == z;
    } else {
      SentUpTo(s);
      assert y in Kept(s)[..s.windexlast][y.slot];
      InCat(Kept(s)[..s.windexlast], y);
      i :| 0 <= i < |s.wire| && s.wire[i] == y;
    }
  }

  lemma SentUpTo(s: State)
    requires BufferInv(s) && s.miscounted == {} && !InCheck(s)
    ensures s.windexlast <= |Kept(s)| && Cat(Kept(s)[..s.windexlast]) <= s.wire
  {
    hide Cat, Kept;
    PrefixForm(Kept(s), Rest(s), s.windexlast, s.off, |s.wire|);
    assert s.wire[..|s.wire|] == s.wire;
  }

  // ---------------------------------------------------------------- bytes sent out of order

  /** A flush that starts behind windexlast, and finds bytes there. */
  ghost predicate SendsFromBehind(s: State, step: Step) {
    && step.Send? && step.taken > 0 && s.flush.Held? && s.flush.start + s.flush.count <= |s.slots|
    && exists k :: s.flush.start <= k < s.windexlast && k < s.flush.start + s.flush.count && s.slots[k] != []
  }

  lemma {:induction false} FirstByte<T>(slots: seq<seq<T>>) returns (j: nat)
    requires Cat(slots) != []
    ensures j < |slots| && slots[j] != [] && Cat(slots)[0] == slots[j][0] && forall i :: 0 <= i < j ==> slots[i] == []
  {
    if slots[0] != [] {
      j := 0;
    } else {
      j := FirstByte(slots[1..]);
      j := j + 1;
    }
  }

  /** What a send takes first is of its first full slot. */
  lemma SendsFirst(replies: Replies, s: State, step: Step) returns (k: nat)
    requires OwnBytes(s) && Enabled(replies, s, step) && s.pcs[step.w].Flushing?
    requires s.flush.Held? && step.Send? && step.taken > 0
    ensures s.flush.start <= k < s.flush.start + s.flush.count <= |s.slots| && s.slots[k] != []
    ensures forall l :: s.flush.start <= l < k ==> s.slots[l] == []
    ensures var u := Do(replies, s, step);
      |u.wire| > |s.wire| && s.wire <= u.wire && u.wire[|s.wire|] == s.slots[k][0] && u.written == s.written
    ensures s.slots[k][0].slot == k && HasWritten(s, s.slots[k][0])
  {
    var offered := s.slots[s.flush.start..s.flush.start + s.flush.count];
    var j := FirstByte(offered);
    k := s.flush.start + j;
    assert forall l :: s.flush.start <= l < k ==> s.slots[l] == offered[l - s.flush.start];
    assert HoldsOwn(s, k) && MarkedAt(s, k) && s.slots[k][0] in s.slots[k];
    hide Cat;
    assert Do(replies, s, step).wire == s.wire + Cat(offered)[..step.taken];
  }

  lemma SendScrambles(replies: Replies, s: State, step: Step)
    requires PastInv(s) && Enabled(replies, s, step) && s.pcs[step.w].Flushing? && SendsFromBehind(s, step)
    ensures Scrambled(Do(replies, s, step))
  {
    var k := SendsFirst(replies, s, step);
    var u, y := Do(replies, s, step), s.slots[k][0];
    hide Do, Enabled;
    assert k < s.windexlast;
    if l :| l in s.miscounted {
      MiscountScrambles(s, l);
      StaysScrambled(s, u);
    } else {
      var i := BehindIsSent(s, y);
      hide PastInv, Less, HasWritten;
      assert u.wire[i] == s.wire[i] && u.wire[|s.wire|] == y;
    }
  }

  /** A slot written when a byte behind it has been sent. */
  lemma LateWriteScrambles(s: State, u: State, k: nat, item: seq<byte>)
    requires WireInv(s) && k < |s.slots| == |s.written| && s.written[k] == None && item != [] && SentBehind(s, k)
    requires u == Write(s, k, item).(pcs := u.pcs)
    ensures Scrambled(u)
  {
    var x := Marked(item, k)[0];
    var z :| z in s.wire && z.slot > k;
    assert HasWritten(u, x) && x !in u.wire && z in u.wire && Less(x, z);
  }

  // ---------------------------------------------------------------- bytes sent and left to be sent

  /** The slot at windexlast holds a byte that has been sent. */
  ghost predicate Doubled(s: State) {
    s.windexlast < |s.slots| && s.slots[s.windexlast] != [] && s.slots[s.windexlast][0] in s.wire
  }

  /** A check that started behind windexlast, where there is nothing, of a send past the end of the slot at windexlast. */
  ghost predicate OverrunRead(s: State, start: nat, read: Slots) {
    && (forall k :: start <= k < s.windexlast && k < |s.slots| ==> s.slots[k] == [])
    && (forall j :: 0 <= j < |read| && start + j < s.windexlast ==> read[j] == [])
    && (forall j :: 0 <= j < |read| && start + j == s.windexlast && s.windexlast < |s.slots| ==> read[j] == s.slots[s.windexlast])
  }

  ghost predicate OverrunInv(s: State) {
    InCheck(s) ==>
      && s.flush.start < s.windexlast < |s.slots| && s.flush.taken >= |s.slots[s.windexlast]|
      && OverrunRead(s, s.flush.start, s.flush.read)
      && (s.flush.Found? ==>
            s.flush.read != [] && s.flush.within > 0 &&
            s.flush.taken == |Cat(s.flush.read[..|s.flush.read| - 1])| + s.flush.within)
  }

  ghost predicate Stuck(s: State) {
    Doubled(s) && OverrunInv(s)
  }

  lemma InOnlyOne(a: seq<Mark>, b: seq<Mark>, x: Mark)
    requires x in a && x in b
    ensures !Sorted(a + b)
  {
    var i :| 0 <= i < |a| && a[i] == x;
    var j :| 0 <= j < |b| && b[j] == x;
    assert (a + b)[i] == x && (a + b)[|a| + j] == x;
  }

  lemma DoubledIsLost(s: State)
    requires OwnBytes(s) && Doubled(s)
    ensures !Conserved(s)
  {
    WrittenSorted(s);
    var x, all := s.slots[s.windexlast][0], Cat(Written(s));
    assert Rest(s)[0] == s.slots[s.windexlast] && x in Rest(s)[0];
    InCat(Rest(s), x);
    hide Cat, OwnBytes, HasWritten, Written, Rest;
    InOnlyOne(s.wire, Cat(Rest(s)), x);
  }

  /** The slots that are full stay so, and nothing is sent or checked. */
  lemma StuckStays(s: State, u: State)
    requires Stuck(s) && u.windexlast == s.windexlast && u.wire == s.wire && |s.slots| <= |u.slots|
    requires u.flush == s.flush || !InCheck(u)
    requires u.slots[s.windexlast] == s.slots[s.windexlast]
    requires InCheck(s) ==> forall k :: s.flush.start <= k < s.windexlast ==> u.slots[k] == s.slots[k]
    ensures Stuck(u)
  {
    hide Cat;
  }

  lemma WriteWhileStuck(s: State, u: State, k: nat, item: seq<byte>)
    requires AnyInv(s) && Stuck(s) && k < |s.slots| && s.written[k] == None && item != []
    requires u == Write(s, k, item).(pcs := u.pcs)
    ensures Stuck(u) || Scrambled(u)
  {
    var f := s.windexlast;
    var x := s.slots[f][0];
    assert HoldsOwn(s, f) && MarkedAt(s, f) && x in s.slots[f];
    assert k != f && x.slot == f;
    if Overlooked(s, k) {
      assert SentBehind(s, k);
      LateWriteScrambles(s, u, k, item);
    } else {
      hide AnyInv, Cat;
      StuckStays(s, u);
    }
  }

  lemma SendWhileStuck(replies: Replies, s: State, step: Step)
    requires AnyInv(s) && Stuck(s) && Enabled(replies, s, step) && s.pcs[step.w].Flushing? && s.flush.Held? && step.taken > 0
    ensures Scrambled(Do(replies, s, step))
  {
    var k := SendsFirst(replies, s, step);
    var u, f := Do(replies, s, step), s.windexlast;
    var x, y := s.slots[f][0], s.slots[k][0];
    assert HoldsOwn(s, f) && MarkedAt(s, f) && x in s.slots[f];
    hide Do, Enabled, AnyInv;
    assert k <= f;
    var i :| 0 <= i < |s.wire| && s.wire[i] == x;
    assert u.wire[i] == x && u.wire[|s.wire|] == y && !Less(x, y);
  }

  lemma ReadWhileStuck(s: State)
    requires Stuck(s) && s.flush.Reading? && |s.flush.read| < |s.flush.offered| && s.flush.start + |s.flush.read| < |s.slots|
    requires |Cat(s.flush.read)| < s.flush.taken
    ensures Stuck(ReadOne(s))
  {
    hide Cat;
    var read, item := s.flush.read, s.slots[s.flush.start + |s.flush.read|];
    assert (read + [item])[..|read|] == read;
    assert OverrunRead(ReadOne(s), s.flush.start, read + [item]);
    hide OverrunRead;
  }

  /** Where such a check stops it leaves the slot at windexlast as it is. */
  lemma SettleWhileStuck(s: State)
    requires Stuck(s) && CanSettle(s)
    ensures Stuck(Settle(s))
  {
    var start, read, f := s.flush.start, s.flush.read, s.windexlast;
    var last := |read| - 1;
    if start + last == f {
      CatOfEmpty(read[..last]);
    }
    hide Cat, Blank;
    assert start + last >= f;
    StuckStays(s, Settle(s));
  }

  lemma StuckStep(replies: Replies, s: State, step: Step)
    requires NonEmpty(replies) && AnyInv(s) && Stuck(s) && Enabled(replies, s, step)
    ensures Stuck(Do(replies, s, step)) || Scrambled(Do(replies, s, step))
  {
    var u, pc := Do(replies, s, step), s.pcs[step.w];
    if pc.Reserved? || pc.LineIn? {
      assert OwnInv(s, step.w);
      hide Stuck, Scrambled, SlotInv, OwnBytes, WireInv;
      if pc.Reserved? { WriteWhileStuck(s, u, pc.index, replies[step.w].0); }
      else { WriteWhileStuck(s, u, pc.index + 1, replies[step.w].1); }
    } else if pc.Flushing? && s.flush.Held? && step.taken > 0 {
      SendWhileStuck(replies, s, step);
    } else if pc.Flushing? && s.flush.Reading? {
      ReadWhileStuck(s);
    } else if pc.Flushing? && s.flush.Found? {
      SettleWhileStuck(s);
    } else {
      hide Cat, SlotInv, OwnBytes, WireInv, Settle, ReadOne;
      StuckStays(s, u);
    }
  }

  // ---------------------------------------------------------------- all runs

  /** What can never be made good. */
  ghost predicate Broken(s: State) {
    AnyInv(s) && (Scrambled(s) || Stuck(s))
  }

  lemma BrokenStep(replies: Replies, s: State, step: Step)
    requires NonEmpty(replies) && Broken(s) && Enabled(replies, s, step)
    ensures Broken(Do(replies, s, step))
  {
    var u := Do(replies, s, step);
    AnyStepKeeps(replies, s, step);
    WireGrows(replies, s, step);
    hide Do, Enabled, NonEmpty, HasWritten, SlotInv, OwnBytes, WireInv, Stuck, Scrambled;
    if Scrambled(s) {
      forall x | HasWritten(s, x) ensures HasWritten(u, x) {
        WrittenStays(replies, s, step, x);
      }
      StaysScrambled(s, u);
    } else {
      StuckStep(replies, s, step);
    }
  }

  lemma {:induction false} NeverConserved(replies: Replies, s: State, steps: seq<Step>)
    requires NonEmpty(replies) && Broken(s) && Legal(replies, s, steps)
    ensures var t := Reached(replies, s, steps); t.windexlast <= |t.slots| && !Conserved(t)
    decreases |steps|
  {
    if steps == [] {
      if Scrambled(s) { ScrambledIsLost(s); } else { DoubledIsLost(s); }
    } else {
      hide Broken, Do, Enabled, NonEmpty, Conserved;
      BrokenStep(replies, s, steps[0]);
      NeverConserved(replies, Do(replies, s, steps[0]), steps[1..]);
    }
  }

  lemma AnyOfPast(replies: Replies, s: State, step: Step)
    requires NonEmpty(replies) && PastInv(s) && Enabled(replies, s, step)
    ensures AnyInv(s) && AnyInv(Do(replies, s, step))
  {
    assert AnyInv(s);
    AnyStepKeeps(replies, s, step);
  }

  /** A flush that starts behind windexlast, finds nothing there, and sends to the end of the slot at windexlast. */
  lemma OverrunSticks(replies: Replies, s: State, step: Step)
    requires PastInv(s) && Enabled(replies, s, step) && s.pcs[step.w].Flushing? && s.flush.Held? && step.taken > 0
    requires s.flush.start != s.windexlast && !Harmless(s, step.taken) && !SendsFromBehind(s, step)
    ensures Stuck(Do(replies, s, step))
  {
    var k := SendsFirst(replies, s, step);
    var u, f, start := Do(replies, s, step), s.windexlast, s.flush.start;
    assert start < f <= k;
    assert Left(s, start);
    Ahead(s, f);
    assert k == f && step.taken >= |s.slots[f]|;
    assert u.flush.Reading? && u.flush.start == start && u.flush.taken == step.taken && u.flush.read == [] && u.slots == s.slots
           && u.windexlast == f by {
      hide Cat, PastInv, SendsFromBehind;
    }
    hide Do, Enabled, PastInv, Cat;
    assert u.slots[f][0] == u.wire[|s.wire|];
  }

  lemma OverlookedIsLate(s: State, k: nat)
    requires PastInv(s) && Overlooked(s, k) && k < |s.written| == |s.slots| && s.written[k] == None
    ensures WireInv(s) && SentBehind(s, k)
  {
    hide AccountInv, PrefixInv, FlushInv, LostInv, SlotInv, SentBehind;
    assert k in s.skipped + s.miscounted;
  }

  /** A write that a check may still count. */
  lemma OverlookedScrambles(replies: Replies, s: State, step: Step, k: nat)
    requires NonEmpty(replies) && PastInv(s) && Enabled(replies, s, step) && Overlooked(s, k)
    requires (s.pcs[step.w].Reserved? && k == s.pcs[step.w].index) || (s.pcs[step.w].LineIn? && k == s.pcs[step.w].index + 1)
    ensures Scrambled(Do(replies, s, step))
  {
    assert OwnInv(s, step.w);
    OverlookedIsLate(s, k);
    hide Cat, PastInv, WireInv, SentBehind, Scrambled, Overlooked;
    LateWriteScrambles(s, Do(replies, s, step), k, if s.pcs[step.w].Reserved? then replies[step.w].0 else replies[step.w].1);
  }

  /** A step that is not orderly breaks a run for good. */
  lemma DisorderBreaks(replies: Replies, s: State, step: Step)
    requires NonEmpty(replies) && PastInv(s) && Enabled(replies, s, step) && !Orderly(s, step)
    ensures Broken(Do(replies, s, step))
  {
    AnyOfPast(replies, s, step);
    var pc := s.pcs[step.w];
    if pc.Reserved? {
      OverlookedScrambles(replies, s, step, pc.index);
    } else if pc.LineIn? {
      OverlookedScrambles(replies, s, step, pc.index + 1);
    } else if SendsFromBehind(s, step) {
      SendScrambles(replies, s, step);
    } else {
      hide PastInv, Do;
      OverrunSticks(replies, s, step);
    }
  }

  lemma {:induction false} DisorderlyRun(replies: Replies, s: State, steps: seq<Step>)
    requires NonEmpty(replies) && PastInv(s) && Legal(replies, s, steps)
    ensures InOrder(replies, s, steps) ==> After(replies, s, steps) == Reached(replies, s, steps)
    ensures var t := Reached(replies, s, steps);
      !InOrder(replies, s, steps) ==> t.windexlast <= |t.slots| && !Conserved(t)
    decreases |steps|
  {
    hide PastInv, Do, FlushEnabled, Orderly, NonEmpty, Conserved, Broken;
    if steps != [] {
      if Orderly(s, steps[0]) {
        PastStepKeeps(replies, s, steps[0]);
        DisorderlyRun(replies, Do(replies, s, steps[0]), steps[1..]);
      } else {
        DisorderBreaks(replies, s, steps[0]);
        NeverConserved(replies, Do(replies, s, steps[0]), steps[1..]);
      }
    }
  }

  /**
   In every interleaving whatever of replies, sends and checks: when no check is under way,
   each byte written is sent once and in order or still left to be, if and only if
   - no flush has sent from behind windexlast, but for one that found nothing there and stopped
     inside the slot at windexlast, and nothing was written behind the check of such a one;
   - no check has counted a slot that was empty when it was sent;
   - no slot that windexlast has passed empty has been written since.
   */
  lemma ConservedInEveryRun(replies: Replies, steps: seq<Step>)
    requires NonEmpty(replies) && Legal(replies, Init(replies), steps) && !InCheck(Reached(replies, Init(replies), steps))
    ensures var s := Reached(replies, Init(replies), steps);
      s.windexlast <= |s.slots| &&
      (Conserved(s) <==> InOrder(replies, Init(replies), steps) && s.miscounted == {} && NoneLate(s))
  {
    PastInit(replies);
    DisorderlyRun(replies, Init(replies), steps);
    hide Conserved, NoneLate, PastInv;
    if InOrder(replies, Init(replies), steps) {
      ConservedExactly(replies, steps);
    }
  }

  /** Once all workers are done the last two say that no slot was passed empty and none counted like that. */
  lemma FinishedInEveryRun(replies: Replies, steps: seq<Step>)
    requires NonEmpty(replies) && Legal(replies, Init(replies), steps) && Finished(Reached(replies, Init(replies), steps))
    ensures var s := Reached(replies, Init(replies), steps);
      s.windexlast <= |s.slots| &&
      (Conserved(s) <==> InOrder(replies, Init(replies), steps) && s.miscounted == {} && s.skipped == {})
  {
    PastInit(replies);
    DisorderlyRun(replies, Init(replies), steps);
    hide Conserved, PastInv, Finished;
    if InOrder(replies, Init(replies), steps) {
      FinishedConservedExactly(replies, steps);
    }
  }

  // ---------------------------------------------------------------- no worker is ever stuck

  /** A slot that was full when it was offered has not changed, and was read as it was. */
  ghost predicate Unchanged(s: State, start: nat, offered: Slots, read: Slots) {
    && start + |offered| <= |s.slots| && |read| <= |offered|
    && (forall j :: 0 <= j < |offered| && offered[j] != [] ==> s.slots[start + j] == offered[j])
    && (forall j :: 0 <= j < |read| && offered[j] != [] ==> read[j] == offered[j])
  }

  /** A flush has what it needs for its next step. */
  ghost predicate GoesOn(s: State) {
    match s.flush
    case Held(_, start, count) => start + count <= |s.slots|
    case Reading(_, start, taken, offered, read) =>
      Unchanged(s, start, offered, read) && taken <= |Cat(offered)| && |Cat(read)| < taken
    case Found(_, start, _, _, read, within) =>
      read != [] && start + |read| <= |s.slots| && 0 < within <= |s.slots[start + |read| - 1]|
    case _ => true
  }

  lemma HasMember<T>(a: seq<T>)
    ensures a != [] ==> exists x :: x in a
  {
    assert a != [] ==> a[0] in a;
  }

  lemma WriteGoesOn(s: State, u: State, k: nat, item: seq<byte>)
    requires GoesOn(s) && OwnBytes(s) && k < |s.slots| && s.written[k] == None && u == Write(s, k, item).(pcs := u.pcs)
    ensures GoesOn(u)
  {
    assert HoldsOwn(s, k);
    HasMember(s.slots[k]);
    hide Cat, OwnBytes;
    if s.flush.Reading? {
      assert Unchanged(u, s.flush.start, s.flush.offered, s.flush.read);
    }
  }

  lemma SendGoesOn(s: State, n: nat)
    requires s.flush.Held? && s.flush.start + s.flush.count <= |s.slots|
    requires n <= |Cat(s.slots[s.flush.start..s.flush.start + s.flush.count])|
    ensures GoesOn(SendNow(s, n))
  {
    assert Cat<Mark>([]) == [];
    hide Cat;
  }

  lemma ReadGoesOn(s: State)
    requires GoesOn(s) && s.flush.Reading? && |s.flush.read| < |s.flush.offered|
    ensures GoesOn(ReadOne(s))
  {
    var start, offered, read := s.flush.start, s.flush.offered, s.flush.read;
    var item := s.slots[start + |read|];
    CatAppend(read, [item]);
    CatOne(item);
    hide Cat;
    assert |Cat(read + [item])| == |Cat(read)| + |item|;
    assert Unchanged(s, start, offered, read + [item]);
    hide Unchanged;
    UnchangedIn(s, ReadOne(s), start, offered, read + [item]);
  }

  lemma UnchangedIn(s: State, u: State, start: nat, offered: Slots, read: Slots)
    requires u.slots == s.slots && Unchanged(s, start, offered, read)
    ensures Unchanged(u, start, offered, read)
  {
  }

  lemma ReadsOn(s: State)
    requires GoesOn(s) && s.flush.Reading?
    ensures |s.flush.read| < |s.flush.offered| && s.flush.start + |s.flush.offered| <= |s.slots|
  {
    hide Cat;
    if |s.flush.read| == |s.flush.offered| {
      LessIsLonger(s.flush.offered, s.flush.read);
    }
  }

  lemma QuietGoesOn(replies: Replies, s: State, step: Step)
    requires AnyInv(s) && GoesOn(s) && Enabled(replies, s, step) && !s.pcs[step.w].Reserved? && !s.pcs[step.w].LineIn?
    requires s.pcs[step.w].Flushing? ==> s.flush.Moved?
    ensures GoesOn(Do(replies, s, step))
  {
    var u := Do(replies, s, step);
    assert OwnInv(s, step.w);
    assert s.windexlast <= |s.slots|;
    hide Cat, SlotInv, OwnBytes, WireInv, SendNow, ReadOne, Settle, FlushEnabled, Unchanged;
    if s.flush.Reading? {
      SlotsStay(s, u, s.flush.start, s.flush.offered, s.flush.read);
    }
  }

  lemma SlotsStay(s: State, u: State, start: nat, offered: Slots, read: Slots)
    requires Unchanged(s, start, offered, read) && |s.slots| <= |u.slots|
    requires forall k :: 0 <= k < |s.slots| ==> u.slots[k] == s.slots[k]
    ensures Unchanged(u, start, offered, read)
  {
  }

  lemma StepGoesOn(replies: Replies, s: State, step: Step)
    requires AnyInv(s) && GoesOn(s) && Enabled(replies, s, step)
    ensures GoesOn(Do(replies, s, step))
  {
    var u, pc := Do(replies, s, step), s.pcs[step.w];
    if pc.Reserved? || pc.LineIn? {
      assert OwnInv(s, step.w);
      hide GoesOn, SlotInv, OwnBytes, WireInv;
      if pc.Reserved? { WriteGoesOn(s, u, pc.index, replies[step.w].0); }
      else { WriteGoesOn(s, u, pc.index + 1, replies[step.w].1); }
    } else if pc.Flushing? && !s.flush.Moved? {
      hide AnyInv, Cat, SendNow, ReadOne;
      match s.flush
      case Held(_, _, _) => SendGoesOn(s, step.taken);
      case Reading(_, _, _, _, _) => ReadGoesOn(s);
      case Found(_, _, _, _, _, _) =>
    } else {
      hide GoesOn, AnyInv, Do;
      QuietGoesOn(replies, s, step);
    }
  }

  lemma {:induction false} RunGoesOn(replies: Replies, s: State, steps: seq<Step>)
    requires NonEmpty(replies) && AnyInv(s) && GoesOn(s) && Legal(replies, s, steps)
    ensures var t := Reached(replies, s, steps); AnyInv(t) && GoesOn(t) && |t.pcs| == |s.pcs|
    decreases |steps|
  {
    hide AnyInv, GoesOn, Do, Enabled, NonEmpty;
    if steps != [] {
      AnyStepKeeps(replies, s, steps[0]);
      StepGoesOn(replies, s, steps[0]);
      RunGoesOn(replies, Do(replies, s, steps[0]), steps[1..]);
    }
  }

  /** The worker has a step: if it is to call sendmsg, one for every part of the offer that it may take. */
  ghost predicate CanMove(replies: Replies, s: State, w: nat)
    requires w < |s.pcs|
  {
    if s.pcs[w].Flushing? && s.flush.Held? then
      && s.flush.w == w && s.flush.start + s.flush.count <= |s.slots|
      && forall n :: 0 <= n <= |Cat(s.slots[s.flush.start..s.flush.start + s.flush.count])| ==> Enabled(replies, s, Send(w, n))
    else
      Enabled(replies, s, Move(w))
  }

  lemma WorkerCanMove(replies: Replies, s: State, w: nat)
    requires AnyInv(s) && GoesOn(s) && |s.pcs| == |replies| && w < |s.pcs| && s.pcs[w] != Done
    ensures CanMove(replies, s, w)
  {
    assert OwnInv(s, w);
    if s.flush.Reading? { ReadsOn(s); }
    hide Cat, SlotInv, OwnBytes, WireInv, Unchanged;
  }

  /**
   The steps are all there: in every state that a run can reach each worker that is not done
   can move, and sendmsg may take any part of what a flush offers it.
   */
  lemma EveryWorkerCanMove(replies: Replies, steps: seq<Step>, w: nat)
    requires NonEmpty(replies) && Legal(replies, Init(replies), steps) && w < |replies|
    ensures |Reached(replies, Init(replies), steps).pcs| == |replies|
    ensures Reached(replies, Init(replies), steps).pcs[w] != Done ==> CanMove(replies, Reached(replies, Init(replies), steps), w)
  {
    PastInit(replies);
    RunGoesOn(replies, Init(replies), steps);
    hide Legal, Reached, AnyInv, GoesOn, CanMove;
    if Reached(replies, Init(replies), steps).pcs[w] != Done {
      WorkerCanMove(replies, Reached(replies, Init(replies), steps), w);
    }
  }
}
